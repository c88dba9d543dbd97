/** Queue 1: _SJF_scheduler (proc.c), the repeated-minimum loop and the draw over its result. */
module Sjf {
  import opened Common
  import opened Queues

  const BILLION := 1_000_000_000

  /** Slots below n of queue 1 whose burst is m, in slot order. */
  function Equal(ps: seq<Task>, m: int, n: nat): (r: seq<int>)
    requires n <= |ps|
  {
    if n == 0 then []
    else if Ready(ps, 1, n - 1) && ps[n - 1].burst == m then Equal(ps, m, n - 1) + [n - 1]
    else Equal(ps, m, n - 1)
  }

  lemma {:induction false} EqualIs(ps: seq<Task>, m: int, n: nat)
    requires n <= |ps|
    ensures var r := Equal(ps, m, n);
      && (forall i :: i in r <==> i < n && Ready(ps, 1, i) && ps[i].burst == m)
      && (forall a :: 0 <= a < |r| ==> r[a] < n) && forall a, b :: 0 <= a < b < |r| ==> r[a] < r[b]
  {
    if n > 0 {
      EqualIs(ps, m, n - 1);
    }
  }

  /** The least burst above m among queue 1's slots below n, and at most 10^9. */
  function NextMin(ps: seq<Task>, m: int, n: nat): (r: int)
    requires n <= |ps|
  {
    if n == 0 then BILLION
    else
      var r := NextMin(ps, m, n - 1);
      if Ready(ps, 1, n - 1) && ps[n - 1].burst > m && ps[n - 1].burst <= r then ps[n - 1].burst else r
  }

  lemma {:induction false} NextMinIs(ps: seq<Task>, m: int, n: nat)
    requires n <= |ps|
    ensures var r := NextMin(ps, m, n);
      && r <= BILLION && (forall i :: i < n && Ready(ps, 1, i) && ps[i].burst > m ==> r <= ps[i].burst)
      && (r == BILLION || (r > m && exists i :: i < n && Ready(ps, 1, i) && ps[i].burst == r))
  {
    if n > 0 {
      NextMinIs(ps, m, n - 1);
    }
  }

  ghost predicate AnyFrom(ps: seq<Task>, m: int, n: nat) {
    exists i :: i < n && Ready(ps, 1, i) && ps[i].burst >= m
  }

  /** The loop's variables between rounds; stop is the break at the end of a round. */
  datatype Loop = Loop(list: seq<int>, minVal: int, stop: bool)

  predicate Done(s: Loop) {
    s.stop || |s.list| >= NPROC
  }

  ghost function Round(ps: seq<Task>, s: Loop): Loop {
    if Done(s) then s
    else Loop(s.list + Equal(ps, s.minVal, |ps|), NextMin(ps, s.minVal, |ps|), !AnyFrom(ps, s.minVal, |ps|))
  }

  ghost function After(ps: seq<Task>, k: nat): Loop {
    if k == 0 then Loop([], 0, false) else Round(ps, After(ps, k - 1))
  }

  // ---------------------------------------------------------------- what it is for

  /** Order by burst, and by slot among equal bursts. */
  predicate Before(ps: seq<Task>, i: int, j: int) {
    0 <= i < |ps| && 0 <= j < |ps| && (ps[i].burst < ps[j].burst || (ps[i].burst == ps[j].burst && i < j))
  }

  predicate Ordered(ps: seq<Task>, l: seq<int>) {
    forall a, b :: 0 <= a < b < |l| ==> Before(ps, l[a], l[b])
  }

  /** The stable sort by burst of exactly the runnable slots of queue 1. */
  ghost predicate StableSort(ps: seq<Task>, l: seq<int>) {
    Ordered(ps, l) && forall i :: i in l <==> Ready(ps, 1, i)
  }

  /** When the loop computes it: all bursts lie in [0, 10^9), or the table is full of queue-1 slots
      and they lie in [0, 10^9]. */
  ghost predicate Sortable(ps: seq<Task>) {
    || (forall i :: Ready(ps, 1, i) ==> 0 <= ps[i].burst < BILLION)
    || (forall i :: 0 <= i < |ps| ==> Ready(ps, 1, i) && 0 <= ps[i].burst <= BILLION)
  }

  /** The list is the stable sort of the slots with a burst below minVal. */
  ghost predicate Sorted(ps: seq<Task>, s: Loop) {
    && 0 <= s.minVal <= BILLION && !s.stop && Ordered(ps, s.list)
    && forall i :: i in s.list <==> Ready(ps, 1, i) && 0 <= ps[i].burst < s.minVal
  }

  lemma AppendOrdered(ps: seq<Task>, s: Loop, n: nat)
    requires Sorted(ps, s) && n <= |ps|
    ensures Ordered(ps, s.list + Equal(ps, s.minVal, n))
  {
    var e := Equal(ps, s.minVal, n);
    EqualIs(ps, s.minVal, n);
    forall a, b | 0 <= a < b < |s.list + e| ensures Before(ps, (s.list + e)[a], (s.list + e)[b]) {
      if a < |s.list| {
        assert s.list[a] in s.list;
      } else {
        assert e[a - |s.list|] in e;
      }
      if b >= |s.list| {
        assert e[b - |s.list|] in e;
      }
    }
  }

  /** A round adds the slots at minVal behind those below it. */
  lemma RoundSorts(ps: seq<Task>, s: Loop)
    requires Sorted(ps, s)
    ensures var l := s.list + Equal(ps, s.minVal, |ps|);
      Ordered(ps, l) && forall i :: i in l <==> Ready(ps, 1, i) && 0 <= ps[i].burst <= s.minVal
  {
    AppendOrdered(ps, s, |ps|);
    EqualIs(ps, s.minVal, |ps|);
  }

  lemma RoundKeepsSorted(ps: seq<Task>, s: Loop)
    requires Sorted(ps, s) && !Done(s) && s.minVal < BILLION && AnyFrom(ps, s.minVal, |ps|)
    ensures Sorted(ps, Round(ps, s)) && Round(ps, s).minVal > s.minVal
  {
    RoundSorts(ps, s);
    NextMinIs(ps, s.minVal, |ps|);
  }

  /** Distinct slots of an ordered list are at most as many as the table has. */
  lemma ListFits(ps: seq<Task>, l: seq<int>)
    requires Ordered(ps, l) && forall i :: i in l ==> 0 <= i < |ps|
    ensures |l| <= |ps| && (|l| == |ps| <==> forall i :: 0 <= i < |ps| ==> i in l)
  {
    var elems := set i | i in l;
    Elems(ps, l);
    SubsetSize(elems, Slots(|ps|));
    if forall i :: 0 <= i < |ps| ==> i in l {
      assert elems == Slots(|ps|);
    }
    forall i | 0 <= i < |ps| && |l| == |ps| ensures i in l {
      assert i in elems;
    }
  }

  lemma {:induction false} Elems(ps: seq<Task>, l: seq<int>)
    requires Ordered(ps, l)
    ensures |(set i | i in l)| == |l|
  {
    if l != [] {
      var n := |l| - 1;
      Elems(ps, l[..n]);
      assert l[n] !in l[..n] by {
        assert forall a :: 0 <= a < n ==> Before(ps, l[a], l[n]);
      }
      assert (set i | i in l) == (set i | i in l[..n]) + {l[n]};
    }
  }

  ghost function Slots(n: nat): (r: set<int>)
    ensures |r| == n && forall i :: i in r <==> 0 <= i < n
  {
    if n == 0 then {} else Slots(n - 1) + {n - 1}
  }

  /** The round that meets no burst above minVal is the last. */
  lemma LastRound(ps: seq<Task>, s: Loop)
    requires |ps| == NPROC && Sortable(ps) && Sorted(ps, s) && |s.list| < NPROC
    requires s.minVal == BILLION || !AnyFrom(ps, s.minVal, |ps|)
    ensures Done(Round(ps, s)) && StableSort(ps, Round(ps, s).list)
  {
    RoundSorts(ps, s);
    var l := Round(ps, s).list;
    if AnyFrom(ps, s.minVal, |ps|) {
      assert forall i :: 0 <= i < |ps| ==> i in l;
      ListFits(ps, l);
    } else {
      assert forall i :: Ready(ps, 1, i) ==> ps[i].burst < s.minVal && i in l;
    }
  }

  /** From any sorted state of a sortable table the loop reaches its end with the stable sort. */
  lemma {:induction false} Reaches(ps: seq<Task>, k: nat) returns (n: nat)
    requires |ps| == NPROC && Sortable(ps) && Sorted(ps, After(ps, k))
    ensures Done(After(ps, n)) && StableSort(ps, After(ps, n).list)
    decreases BILLION - After(ps, k).minVal
  {
    var s := After(ps, k);
    if |s.list| >= NPROC {
      ListFits(ps, s.list);
      assert forall i :: 0 <= i < |ps| ==> i in s.list;
      return k;
    }
    assert After(ps, k + 1) == Round(ps, s);
    if s.minVal < BILLION && AnyFrom(ps, s.minVal, |ps|) {
      RoundKeepsSorted(ps, s);
      n := Reaches(ps, k + 1);
    } else {
      LastRound(ps, s);
      n := k + 1;
    }
  }

  /** Everything in the list is a slot of queue 1 with a burst in [0, 10^9]. */
  lemma {:induction false} ListedBursts(ps: seq<Task>, k: nat)
    ensures var s := After(ps, k);
      0 <= s.minVal <= BILLION && forall i :: i in s.list ==> Ready(ps, 1, i) && 0 <= ps[i].burst <= BILLION
  {
    if k > 0 {
      ListedBursts(ps, k - 1);
      EqualIs(ps, After(ps, k - 1).minVal, |ps|);
      NextMinIs(ps, After(ps, k - 1).minVal, |ps|);
    }
  }

  lemma {:induction false} NeverStops(ps: seq<Task>, i: int, k: nat)
    requires Ready(ps, 1, i) && ps[i].burst >= BILLION
    ensures !After(ps, k).stop
  {
    if k > 0 {
      NeverStops(ps, i, k - 1);
      ListedBursts(ps, k - 1);
    }
  }

  /** The loop ends with the stable sort of queue 1 if and only if the table is sortable. */
  lemma SortsIff(ps: seq<Task>)
    requires |ps| == NPROC
    ensures (exists k: nat :: Done(After(ps, k)) && StableSort(ps, After(ps, k).list)) <==> Sortable(ps)
  {
    if Sortable(ps) {
      var k := Reaches(ps, 0);
    }
    if exists k: nat :: Done(After(ps, k)) && StableSort(ps, After(ps, k).list) {
      var k: nat :| Done(After(ps, k)) && StableSort(ps, After(ps, k).list);
      var s := After(ps, k);
      ListedBursts(ps, k);
      assert forall i :: Ready(ps, 1, i) ==> i in s.list;
      if i :| Ready(ps, 1, i) && ps[i].burst == BILLION {
        NeverStops(ps, i, k);
        ListFits(ps, s.list);
      }
    }
  }

  lemma {:induction false} NoneEqual(ps: seq<Task>, m: int, n: nat)
    requires n <= |ps| && forall i :: Ready(ps, 1, i) ==> ps[i].burst != m
    ensures Equal(ps, m, n) == []
  {
    if n > 0 {
      NoneEqual(ps, m, n - 1);
    }
  }

  // ---------------------------------------------------------------- how it ends

  /** The slots of queue 1 with a burst in [0, 10^9), and how many have exactly 10^9. */
  ghost function LowSlots(ps: seq<Task>): set<int> {
    set i | 0 <= i < |ps| && Ready(ps, 1, i) && 0 <= ps[i].burst < BILLION
  }

  function AtBillion(ps: seq<Task>): nat {
    |Equal(ps, BILLION, |ps|)|
  }

  lemma AllLowListed(ps: seq<Task>, s: Loop)
    requires Sorted(ps, s) && s.minVal == BILLION
    ensures |s.list| == |LowSlots(ps)|
  {
    Elems(ps, s.list);
    assert (set i | i in s.list) == LowSlots(ps);
  }

  /** x is a multiple of m. */
  predicate Divides(m: nat, x: int)
    requires m > 0
  {
    x == 0 || (x >= m && Divides(m, x - m))
  }

  lemma DividesMore(m: nat, x: nat)
    requires m > 0 && Divides(m, x)
    ensures Divides(m, x + m)
  {
    assert x + m - m == x;
  }

  /** Two multiples of m are m apart at least. */
  lemma {:induction false} MultiplesApart(m: nat, x: nat, y: nat)
    requires m > 0 && y < x && Divides(m, x) && Divides(m, y)
    ensures x >= y + m
  {
    if y > 0 {
      MultiplesApart(m, x - m, y - m);
    }
  }

  /** The rounds after all shorter bursts are listed: each lists the slots at 10^9 once more. */
  ghost predicate Again(ps: seq<Task>, s: Loop) {
    var n, m := |LowSlots(ps)|, AtBillion(ps);
    && m > 0 && s.minVal == BILLION && !s.stop
    && n < |s.list| < NPROC + m && Divides(m, |s.list| - n)
  }

  ghost predicate Phase(ps: seq<Task>, s: Loop) {
    || Sorted(ps, s)
    || (s.stop && |s.list| <= NPROC && AtBillion(ps) == 0)
    || Again(ps, s)
  }

  /** What the round from a sorted state leads to. */
  lemma SortedRound(ps: seq<Task>, s: Loop)
    requires |ps| == NPROC && Sorted(ps, s) && !Done(s)
    ensures Phase(ps, Round(ps, s))
    ensures s.minVal < BILLION ==> Round(ps, s).stop || Round(ps, s).minVal > s.minVal
    ensures s.minVal == BILLION && AtBillion(ps) > 0 ==> Again(ps, Round(ps, s))
    ensures s.minVal == BILLION && AtBillion(ps) == 0 && AnyFrom(ps, BILLION, |ps|) ==> Sorted(ps, Round(ps, s))
    ensures !AnyFrom(ps, s.minVal, |ps|) ==> Round(ps, s).stop
  {
    RoundSorts(ps, s);
    NextMinIs(ps, s.minVal, |ps|);
    if !AnyFrom(ps, s.minVal, |ps|) {
      NoneEqual(ps, BILLION, |ps|);
      ListFits(ps, Round(ps, s).list);
    } else if s.minVal < BILLION {
      RoundKeepsSorted(ps, s);
    } else {
      AllLowListed(ps, s);
      EqualIs(ps, BILLION, |ps|);
      if AtBillion(ps) > 0 {
        DividesMore(AtBillion(ps), 0);
        assert Equal(ps, BILLION, |ps|)[0] in Equal(ps, BILLION, |ps|);
      }
    }
  }

  lemma AgainRound(ps: seq<Task>, s: Loop)
    requires |ps| == NPROC && Again(ps, s) && !Done(s)
    ensures Again(ps, Round(ps, s)) && |Round(ps, s).list| == |s.list| + AtBillion(ps)
  {
    NextMinIs(ps, BILLION, |ps|);
    EqualIs(ps, BILLION, |ps|);
    assert Equal(ps, BILLION, |ps|)[0] in Equal(ps, BILLION, |ps|);
    DividesMore(AtBillion(ps), |s.list| - |LowSlots(ps)|);
  }

  lemma {:induction false} PhaseAt(ps: seq<Task>, k: nat)
    requires |ps| == NPROC
    ensures Phase(ps, After(ps, k))
  {
    if k > 0 {
      PhaseAt(ps, k - 1);
      var s := After(ps, k - 1);
      if !Done(s) {
        if Sorted(ps, s) {
          SortedRound(ps, s);
        } else {
          AgainRound(ps, s);
        }
      }
    }
  }

  lemma {:induction false} Ends(ps: seq<Task>, k: nat) returns (j: nat)
    requires |ps| == NPROC && (AtBillion(ps) > 0 || forall i :: Ready(ps, 1, i) ==> ps[i].burst <= BILLION)
    ensures Done(After(ps, j))
    decreases BILLION - After(ps, k).minVal, NPROC - |After(ps, k).list|
  {
    var s := After(ps, k);
    PhaseAt(ps, k);
    if Done(s) {
      return k;
    }
    if Sorted(ps, s) {
      SortedRound(ps, s);
      if AtBillion(ps) == 0 && s.minVal == BILLION {
        EqualIs(ps, BILLION, |ps|);
        assert !AnyFrom(ps, BILLION, |ps|);
      } else if s.minVal == BILLION {
        AllLowListed(ps, s);
      }
    } else {
      AgainRound(ps, s);
    }
    assert After(ps, k + 1) == Round(ps, s);
    if Done(After(ps, k + 1)) {
      return k + 1;
    }
    PhaseAt(ps, k + 1);
    j := Ends(ps, k + 1);
  }

  /** The loop is over after k rounds. */
  ghost predicate EndsBy(ps: seq<Task>, k: nat) {
    Done(After(ps, k))
  }

  /** By the end of round k the loop has written past the end of its array. */
  ghost predicate OverrunBy(ps: seq<Task>, k: nat) {
    |After(ps, k).list| > NPROC
  }

  /** The loop ends if and only if some burst of the queue is exactly 10^9 or none is above it. */
  lemma EndsIff(ps: seq<Task>)
    requires |ps| == NPROC
    ensures (exists k: nat :: EndsBy(ps, k)) <==>
      || (exists i :: Ready(ps, 1, i) && ps[i].burst == BILLION)
      || (forall i :: Ready(ps, 1, i) ==> ps[i].burst <= BILLION)
  {
    EqualIs(ps, BILLION, |ps|);
    if exists i :: Ready(ps, 1, i) && ps[i].burst == BILLION {
      var i :| Ready(ps, 1, i) && ps[i].burst == BILLION;
      assert i in Equal(ps, BILLION, |ps|);
      var j := Ends(ps, 0);
      assert EndsBy(ps, j);
    } else if forall i :: Ready(ps, 1, i) ==> ps[i].burst <= BILLION {
      var j := Ends(ps, 0);
      assert EndsBy(ps, j);
    } else {
      var i :| Ready(ps, 1, i) && ps[i].burst > BILLION;
      forall k: nat ensures !EndsBy(ps, k) {
        LoopsForever(ps, i, k);
      }
    }
  }

  /** Some burst above 10^9 and none equal to it: no number of rounds ends the loop. */
  lemma LoopsForever(ps: seq<Task>, i: int, k: nat)
    requires |ps| == NPROC && Ready(ps, 1, i) && ps[i].burst > BILLION
    requires forall j :: Ready(ps, 1, j) ==> ps[j].burst != BILLION
    ensures !Done(After(ps, k))
  {
    NoneEqual(ps, BILLION, |ps|);
    PhaseAt(ps, k);
    NeverStops(ps, i, k);
    ListFits(ps, After(ps, k).list);
  }

  /** Once the array has been overrun, its bound lies between two multiples. */
  lemma OverrunOnlyIf(ps: seq<Task>, k: nat)
    requires |ps| == NPROC && OverrunBy(ps, k)
    ensures var n, m := |LowSlots(ps)|, AtBillion(ps); m > 0 && !Divides(m, NPROC - n)
  {
    var n, m, s := |LowSlots(ps)|, AtBillion(ps), After(ps, k);
    PhaseAt(ps, k);
    if Sorted(ps, s) {
      ListFits(ps, s.list);
    }
    if Divides(m, NPROC - n) {
      MultiplesApart(m, |s.list| - n, NPROC - n);
    }
  }

  lemma OverrunIf(ps: seq<Task>) returns (k: nat)
    requires |ps| == NPROC && AtBillion(ps) > 0 && !Divides(AtBillion(ps), NPROC - |LowSlots(ps)|)
    ensures OverrunBy(ps, k)
  {
    k := Ends(ps, 0);
    var s := After(ps, k);
    PhaseAt(ps, k);
    EqualIs(ps, BILLION, |ps|);
    var i := Equal(ps, BILLION, |ps|)[0];
    assert i in Equal(ps, BILLION, |ps|);
    NeverStops(ps, i, k);
    if Sorted(ps, s) {
      ListFits(ps, s.list);
    }
  }

  /** The loop writes past the end of its 64-entry array if and only if m > 0 slots have a burst of
      exactly 10^9 and m does not divide what the n shorter bursts leave of the array. */
  lemma OverrunsIff(ps: seq<Task>)
    requires |ps| == NPROC
    ensures var n, m := |LowSlots(ps)|, AtBillion(ps);
      (exists k: nat :: OverrunBy(ps, k)) <==> m > 0 && !Divides(m, NPROC - n)
  {
    if exists k: nat :: OverrunBy(ps, k) {
      var k: nat :| OverrunBy(ps, k);
      OverrunOnlyIf(ps, k);
    } else if AtBillion(ps) > 0 && !Divides(AtBillion(ps), NPROC - |LowSlots(ps)|) {
      var k := OverrunIf(ps);
    }
  }

  lemma {:induction false} ByThree(x: nat)
    ensures Divides(3, x) <==> x % 3 == 0
  {
    if x >= 3 {
      ByThree(x - 3);
    }
  }

  /** For instance with nobody else in the queue, three slots at 10^9 do. */
  lemma ThreeAtBillion(ps: seq<Task>)
    requires |ps| == NPROC && LowSlots(ps) == {} && AtBillion(ps) == 3
    ensures exists k: nat :: OverrunBy(ps, k)
  {
    OverrunsIff(ps);
    ByThree(NPROC);
  }

  // ---------------------------------------------------------------- the code

  /** No round of a sortable table writes past the end of p_idx. */
  lemma RoomInArray(ps: seq<Task>, s: Loop, n: nat)
    requires |ps| == NPROC && Sorted(ps, s) && n <= |ps|
    ensures |s.list| + |Equal(ps, s.minVal, n)| <= NPROC
  {
    AppendOrdered(ps, s, n);
    EqualIs(ps, s.minVal, n);
    ListFits(ps, s.list + Equal(ps, s.minVal, n));
  }

  /** One round over the table: the slots at minVal into p_idx, and the next minimum. */
  method Scan(ps: seq<Task>, pIdx: array<int>, idx0: nat, minVal: int) returns (idx: nat, newMin: int, flag: bool)
    requires |ps| == NPROC && pIdx.Length == NPROC && idx0 <= NPROC && Sorted(ps, Loop(pIdx[..idx0], minVal, false))
    modifies pIdx
    ensures idx <= NPROC && pIdx[..idx] == old(pIdx[..idx0]) + Equal(ps, minVal, |ps|)
    ensures newMin == NextMin(ps, minVal, |ps|) && (flag <==> !AnyFrom(ps, minVal, |ps|))
  {
    ghost var s := Loop(pIdx[..idx0], minVal, false);
    idx, newMin, flag := idx0, BILLION, true;
    var p := 0;
    while p < NPROC
      invariant 0 <= p <= NPROC && idx0 <= idx <= NPROC && pIdx[..idx] == s.list + Equal(ps, minVal, p)
      invariant newMin == NextMin(ps, minVal, p) && (flag <==> !AnyFrom(ps, minVal, p))
    {
      if ps[p].runnable && ps[p].queue == 1 {
        assert Ready(ps, 1, p);
        if minVal < ps[p].burst {
          newMin := if newMin < ps[p].burst then newMin else ps[p].burst;
          flag := false;
        } else if minVal == ps[p].burst {
          RoomInArray(ps, s, p + 1);
          pIdx[idx] := p;
          idx := idx + 1;
          flag := false;
        }
      }
      p := p + 1;
    }
  }

  /** _SJF_scheduler's first half. */
  method Collect(ps: seq<Task>) returns (pIdx: array<int>, idx: nat)
    requires |ps| == NPROC && Sortable(ps)
    ensures fresh(pIdx) && pIdx.Length == NPROC && idx <= NPROC && StableSort(ps, pIdx[..idx])
  {
    pIdx := new int[NPROC];
    idx := 0;
    var minVal := 0;
    while idx < NPROC
      invariant 0 <= idx <= NPROC
      invariant idx < NPROC ==> Sorted(ps, Loop(pIdx[..idx], minVal, false))
      invariant idx == NPROC ==> StableSort(ps, pIdx[..idx])
      decreases if idx < NPROC then 1 else 0, BILLION - minVal
    {
      ghost var s := Loop(pIdx[..idx], minVal, false);
      var newMin, flag;
      idx, newMin, flag := Scan(ps, pIdx, idx, minVal);
      ghost var t := Loop(pIdx[..idx], newMin, flag);
      assert t == Round(ps, s);
      if s.minVal < BILLION && AnyFrom(ps, s.minVal, |ps|) {
        RoundKeepsSorted(ps, s);
        if idx == NPROC {
          ListFits(ps, t.list);
        }
      } else {
        LastRound(ps, s);
      }
      minVal := newMin;
      if flag {
        break;
      }
    }
  }

  /** The generator, in 32-bit unsigned arithmetic. */
  function Rand(seed: nat): nat {
    seed / 65536 % 32768 % 100
  }

  lemma RandBelow(seed: nat)
    ensures Rand(seed) < 100 && Rand(seed) == (seed / 0x1_0000 % 0x8000) % 100
  {
  }

  function NextSeed(seed: nat, ticks: nat): nat {
    Low32((seed + ticks) * 1103515243 + 12345)
  }

  /** The seed at draw i, when ticks reads ticks[0], ticks[1], and so on. */
  function Seed(seed: nat, ticks: seq<nat>, i: nat): nat
    requires i <= |ticks|
  {
    if i == 0 then seed else NextSeed(Seed(seed, ticks, i - 1), ticks[i - 1])
  }

  predicate Wins(ps: seq<Task>, seed: nat, ticks: seq<nat>, l: seq<int>, i: int)
    requires 0 <= i < |l| && |l| <= |ticks| && 0 <= l[i] < |ps|
  {
    Rand(Seed(seed, ticks, i)) < ps[l[i]].confidence
  }

  /** The generator one draw on. */
  lemma SeedAfter(seed: nat, ticks: seq<nat>, i: nat)
    requires i < |ticks|
    ensures Seed(seed, ticks, 0) == seed
    ensures Seed(seed, ticks, i + 1) == ((Seed(seed, ticks, i) + ticks[i]) * 1103515243 + 12345) % 0x1_0000_0000
  {
  }

  /** A confidence of 100 or more always wins, one of 0 or less never does. */
  lemma SureDraws(ps: seq<Task>, seed: nat, ticks: seq<nat>, l: seq<int>, i: int)
    requires 0 <= i < |l| && |l| <= |ticks| && 0 <= l[i] < |ps|
    ensures ps[l[i]].confidence >= 100 ==> Wins(ps, seed, ticks, l, i)
    ensures ps[l[i]].confidence <= 0 ==> !Wins(ps, seed, ticks, l, i)
  {
    RandBelow(Seed(seed, ticks, i));
  }

  class Queue1 {
    var seed: nat     // the static seed

    /** _SJF_scheduler: none iff queue 1 has no runnable slot; otherwise one of them such that every
        slot before it in the stable sort lost its draw, and it won its own or is the last. */
    method ShortestJob(ps: seq<Task>, ticks: seq<nat>) returns (r: int, ghost l: seq<int>, ghost k: nat)
      requires |ps| == NPROC && Sortable(ps) && |ticks| == NPROC
      modifies this
      ensures StableSort(ps, l) && |l| <= NPROC
      ensures r == -1 <==> forall i :: !Ready(ps, 1, i)
      ensures r != -1 ==> k < |l| && r == l[k] && Ready(ps, 1, r) && (Wins(ps, old(seed), ticks, l, k) || k == |l| - 1)
      ensures r != -1 ==> forall j :: 0 <= j < k ==> 0 <= l[j] < NPROC && !Wins(ps, old(seed), ticks, l, j)
      ensures r != -1 ==> forall j :: 0 <= j < k ==> ps[l[j]].confidence < 100
      ensures r != -1 && ps[r].confidence <= 0 ==> k == |l| - 1
      ensures seed == if r == -1 then old(seed) else Seed(old(seed), ticks, k + 1)
    {
      var pIdx, idx := Collect(ps);
      l := pIdx[..idx];
      if idx == 0 {
        return -1, l, 0;
      }
      assert forall j :: 0 <= j < idx ==> l[j] in l;
      var i := Draw(ps, pIdx[..idx], ticks);
      assert l[i] in l;
      forall j | 0 <= j <= i ensures 0 <= l[j] < NPROC && (j < i ==> ps[l[j]].confidence < 100) {
        SureDraws(ps, old(seed), ticks, l, j);
      }
      SureDraws(ps, old(seed), ticks, l, i);
      return pIdx[i], l, i;
    }

    /** The loop over p_idx. */
    method Draw(ps: seq<Task>, l: seq<int>, ticks: seq<nat>) returns (k: nat)
      requires 0 < |l| <= |ticks| && forall j :: 0 <= j < |l| ==> 0 <= l[j] < |ps|
      modifies this
      ensures k < |l| && (Wins(ps, old(seed), ticks, l, k) || k == |l| - 1)
      ensures forall j :: 0 <= j < k ==> !Wins(ps, old(seed), ticks, l, j)
      ensures seed == Seed(old(seed), ticks, k + 1)
    {
      k := 0;
      while k < |l|
        invariant 0 <= k <= |l| && seed == Seed(old(seed), ticks, k)
        invariant forall j :: 0 <= j < k ==> !Wins(ps, old(seed), ticks, l, j)
      {
        var rand := Rand(seed);
        seed := NextSeed(seed, ticks[k]);
        if rand < ps[l[k]].confidence {
          return;
        }
        k := k + 1;
      }
      k := |l| - 1;
    }
  }
}
