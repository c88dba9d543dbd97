/**
  The memo table of fibonacci_number (proc.c) and the recursion that fills it, for one process.
  FibRuns has the calls of many processes.
*/
module Fibonacci {

  const SIZE := 41

  function F(n: nat): (r: nat)
    ensures r >= 1
  {
    if n < 2 then 1 else F(n - 1) + F(n - 2)
  }

  /** The numbering starts with two ones. */
  lemma FirstNumbers()
    ensures F(0) == 1 && F(1) == 1 && F(2) == 2 && F(3) == 3 && F(4) == 5 && F(5) == 8 && F(6) == 13
  {
  }

  lemma {:induction false} FGrows(i: nat, j: nat)
    requires i <= j
    ensures F(i) <= F(j)
  {
    if i < j {
      FGrows(i, j - 1);
    }
  }

  lemma FTen(n: nat)
    ensures F(n + 10) <= 144 * F(n)
  {
    assert F(n + 1) <= 2 * F(n);
    assert F(n + 2) == F(n) + F(n + 1);
    assert F(n + 3) == F(n) + 2 * F(n + 1);
    assert F(n + 4) == 2 * F(n) + 3 * F(n + 1);
    assert F(n + 5) == 3 * F(n) + 5 * F(n + 1);
    assert F(n + 6) == 5 * F(n) + 8 * F(n + 1);
    assert F(n + 7) == 8 * F(n) + 13 * F(n + 1);
    assert F(n + 8) == 13 * F(n) + 21 * F(n + 1);
    assert F(n + 9) == 21 * F(n) + 34 * F(n + 1);
  }

  /** Every entry the table can hold is an int. */
  lemma FIsInt(n: nat)
    requires n < SIZE
    ensures 1 <= F(n) < 0x8000_0000
  {
    var z := if n == 0 then n else 0;
    FGrows(n, z + 40);
    FTen(z);
    FTen(z + 10);
    FTen(z + 20);
    FTen(z + 30);
  }

  class Table {
    const fibs: array<int>
    const valid: array<bool>

    /** Entries below k are right if valid and 0 if not. */
    ghost predicate Right(k: nat)
      reads fibs, valid
      requires k <= fibs.Length && k <= valid.Length
    {
      forall i :: 0 <= i < k ==> fibs[i] == if valid[i] then F(i) else 0
    }

    ghost predicate Shape()
      reads this, fibs, valid
    {
      fibs.Length == SIZE && valid.Length == SIZE && valid[0] && valid[1]
    }

    ghost predicate Valid()
      reads this, fibs, valid
    {
      Shape() && Right(SIZE)
    }

    /** _fib_init. */
    constructor ()
      ensures Valid() && fresh(fibs) && fresh(valid)
      ensures forall i :: 0 <= i < SIZE ==> valid[i] == (i < 2)
    {
      fibs := new int[SIZE](_ => 0);
      valid := new bool[SIZE](_ => false);
      new;
      fibs[0], valid[0] := 1, true;
      fibs[1], valid[1] := 1, true;
    }

    /** The part of a call between its acquire and its release, with the nested calls inside. Sums
        are in int range throughout, valid entries never change, and entries above n are not touched. */
    method Compute(n: nat)
      requires n < SIZE && Shape() && Right(n + 1)
      modifies fibs, valid
      ensures Shape() && Right(n + 1) && valid[n]
      ensures forall i :: 0 <= i < SIZE && old(valid[i]) ==> valid[i] && fibs[i] == old(fibs[i])
      ensures forall i :: n < i < SIZE ==> valid[i] == old(valid[i]) && fibs[i] == old(fibs[i])
      decreases n
    {
      if valid[n] {
        return;
      }
      FIsInt(n);
      FIsInt(n - 1);
      Compute(n - 1);
      assert 0 <= fibs[n] + fibs[n - 1] < 0x8000_0000;
      fibs[n] := fibs[n] + fibs[n - 1];
      Compute(n - 2);
      assert 0 <= fibs[n] + fibs[n - 2] < 0x8000_0000;
      fibs[n] := fibs[n] + fibs[n - 2];
      valid[n] := true;
    }

    /** fibonacci_number: an index out of range is refused, any other gives the Fibonacci number. */
    method Number(n: int) returns (r: int)
      requires Valid()
      modifies fibs, valid
      ensures Valid() && r == (if 0 <= n < SIZE then F(n) else -1) && r < 0x8000_0000
      ensures forall i :: 0 <= i < SIZE && old(valid[i]) ==> valid[i] && fibs[i] == old(fibs[i])
    {
      if n < 0 || n >= SIZE {
        return -1;
      }
      Compute(n);
      FIsInt(n);
      return fibs[n];
    }
  }
}
