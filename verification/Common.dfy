/** Sizes from param.h, and small types that several parts share. */
module Common {

  const NPROC: nat := 64
  const MAXOPBLOCKS: nat := 10
  const LOGSIZE: nat := 30
  const NBUF: nat := 30

  /** Unsigned 32-bit numbers, and what is left of a number in 32 bits. */
  const UINT: nat := 0x1_0000_0000

  type uint = x: int | 0 <= x < 0x1_0000_0000

  function Low32(x: int): (r: uint) {
    x % 0x1_0000_0000
  }

  function Add32(a: nat, b: nat): (r: uint) {
    Low32(a + b)
  }

  datatype Option<+T> = None | Some(value: T)

  /** The result of code that may panic; after a panic nothing runs any more. */
  datatype Outcome<+T> = Panic | Done(value: T)

  ghost predicate Distinct(s: seq<nat>) {
    forall i, j :: 0 <= i < j < |s| ==> s[i] != s[j]
  }

  /** A sequence without its i-th element. */
  function Without<T>(s: seq<T>, i: nat): (r: seq<T>)
    requires i < |s|
  {
    s[..i] + s[i + 1..]
  }

  /** The numbers from a up to b. */
  function Interval(a: nat, b: nat): (r: set<nat>)
    ensures forall x: nat :: x in r <==> a <= x < b
    decreases b - a
  {
    if a < b then {a} + Interval(a + 1, b) else {}
  }

  lemma {:induction false} IntervalSize(a: nat, b: nat)
    requires a <= b
    ensures |Interval(a, b)| == b - a
    decreases b - a
  {
    if a < b {
      IntervalSize(a + 1, b);
    }
  }

  lemma DisjointSize<T>(a: set<T>, b: set<T>)
    requires a !! b
    ensures |a + b| == |a| + |b|
  {
  }

  lemma SubsetSize<T>(a: set<T>, b: set<T>)
    requires a <= b
    ensures |a| <= |b| && (|a| == |b| ==> a == b)
  {
    assert b == a + (b - a);
    assert |b| == |a| + |b - a|;
  }

  function Members(s: seq<nat>): (r: set<nat>)
    ensures forall x :: x in r <==> x in s
  {
    set x | x in s
  }

  lemma {:induction false} ListSize(h: seq<nat>)
    requires Distinct(h)
    ensures |Members(h)| == |h|
  {
    if h != [] {
      var n := |h| - 1;
      ListSize(h[..n]);
      assert Members(h) == Members(h[..n]) + {h[n]};
    }
  }

  /** The position behind i in a ring of n. */
  function Succ(i: nat, n: nat): (j: nat) {
    if i + 1 < n then i + 1 else 0
  }
}
