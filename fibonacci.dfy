/**
 * Fibonacci numbers computed two ways: by the recursive definition and by a
 * loop over a pair of consecutive values.
 */
module Fibonacci {

  /** The recursive definition; every position at or below 0 gives 0. */
  function FibonacciRecursive(n: int): (r: int)
    ensures r >= 0
    ensures n >= 1 ==> r >= 1
    decreases n
  {
    if n <= 0 then 0
    else if n == 1 then 1
    else FibonacciRecursive(n - 1) + FibonacciRecursive(n - 2)
  }

  /** The start of the sequence, as the recursive version documents it. */
  lemma FirstTen()
    ensures seq(10, i => FibonacciRecursive(i)) == [0, 1, 1, 2, 3, 5, 8, 13, 21, 34]
  {
    assert FibonacciRecursive(2) == 1;
    assert FibonacciRecursive(3) == 2;
    assert FibonacciRecursive(4) == 3;
    assert FibonacciRecursive(5) == 5;
    assert FibonacciRecursive(6) == 8;
    assert FibonacciRecursive(7) == 13;
    assert FibonacciRecursive(8) == 21;
    assert FibonacciRecursive(9) == 34;
  }

  /** The loop version gives the same number as the recursive one for every
      position, which is what the program's comparison prints side by side. */
  method FibonacciLoop(n: int) returns (b: int)
    ensures b == FibonacciRecursive(n)
  {
    if n <= 0 {
      return 0;
    } else if n == 1 {
      return 1;
    }
    var a := 0;
    b := 1;
    for i := 2 to n + 1
      invariant a == FibonacciRecursive(i - 2)
      invariant b == FibonacciRecursive(i - 1)
    {
      a, b := b, a + b;
    }
  }
}
