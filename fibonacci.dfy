/**
 * The linear recurrence the three Fibonacci chips lay out: two public seeds
 * and each later term the field sum of the two before it.
 */
module Fibonacci {
  import opened Field

  /**
   * The terms as the chips hold them in their cells: the seeds f(0) = a and
   * f(1) = b exactly as read from the instance column, and every later term
   * the field sum f(i) = f(i - 2) + f(i - 1) mod P.
   */
  function Fib(P: nat, a: int, b: int, i: nat): int
    requires P > 1
  {
    if i == 0 then a
    else if i == 1 then b
    else (Fib(P, a, b, i - 2) + Fib(P, a, b, i - 1)) % P
  }

  /** The same recurrence over the integers. */
  function FibInt(a: int, b: int, i: nat): int
  {
    if i == 0 then a
    else if i == 1 then b
    else FibInt(a, b, i - 2) + FibInt(a, b, i - 1)
  }

  /**
   * The cells hold the integer sequence reduced mod P, and every term past
   * the seeds is already a canonical field element.
   */
  lemma {:induction false} FibReduces(P: nat, a: int, b: int, i: nat)
    requires P > 1
    ensures Fib(P, a, b, i) % P == FibInt(a, b, i) % P
    ensures i >= 2 ==> 0 <= Fib(P, a, b, i) < P
  {
    if i >= 2 {
      FibReduces(P, a, b, i - 2);
      FibReduces(P, a, b, i - 1);
      var x, y := Fib(P, a, b, i - 2), Fib(P, a, b, i - 1);
      var u, w := FibInt(a, b, i - 2), FibInt(a, b, i - 1);
      calc {
        Fib(P, a, b, i) % P;
        ((x + y) % P) % P;
        { ModSmall((x + y) % P, P); }
        (x + y) % P;
        { ModAdd(x, y, P); }
        (x % P + y % P) % P;
        (u % P + w % P) % P;
        { ModAdd(u, w, P); }
        (u + w) % P;
      }
    }
  }

  /** With seeds (1, 1) the term at index 9, the tenth, is 55. */
  lemma {:induction false} FibTenth(P: nat)
    requires P > 55
    ensures Fib(P, 1, 1, 9) == 55
  {
    assert Fib(P, 1, 1, 2) == 2 by { ModSmall(2, P); }
    assert Fib(P, 1, 1, 3) == 3 by { ModSmall(3, P); }
    assert Fib(P, 1, 1, 4) == 5 by { ModSmall(5, P); }
    assert Fib(P, 1, 1, 5) == 8 by { ModSmall(8, P); }
    assert Fib(P, 1, 1, 6) == 13 by { ModSmall(13, P); }
    assert Fib(P, 1, 1, 7) == 21 by { ModSmall(21, P); }
    assert Fib(P, 1, 1, 8) == 34 by { ModSmall(34, P); }
    ModSmall(55, P);
  }
}
