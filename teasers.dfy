/** `ExampleTeasers`: the recursive Fibonacci function, trial-division primality and the two
    demonstrations that print them on fixed inputs. C#'s `int` is 32 bits and its arithmetic
    is unchecked, so sums and products that leave the range wrap around; the model writes
    that out with `Wrap32`. The console output of each demonstration is modelled as the lines
    it writes. */
module ExampleTeasers {
  import opened Text

  // ---------------------------------------------------------------------------
  // 32-bit integers

  const Int32Min: int := -0x8000_0000
  const Int32Max: int := 0x7fff_ffff
  const TwoTo32: int := 0x1_0000_0000

  predicate IsInt32(x: int) {
    Int32Min <= x <= Int32Max
  }

  /** The `int` that unchecked C# arithmetic leaves for the exact result `x`: the value in
      range that is congruent to `x` modulo 2^32. */
  function Wrap32(x: int): (r: int)
    ensures IsInt32(r)
    ensures IsInt32(x) ==> r == x
  {
    var m := x % TwoTo32;
    if m > Int32Max then m - TwoTo32 else m
  }

  /** `Wrap32(x)` is the one `int` congruent to `x` modulo 2^32. */
  lemma Wrap32Congruent(x: int, y: int)
    ensures (x - Wrap32(x)) % TwoTo32 == 0
    ensures IsInt32(y) && (x - y) % TwoTo32 == 0 ==> y == Wrap32(x)
  {
    var r := Wrap32(x);
    assert x - r == TwoTo32 * (x / TwoTo32) || x - r == TwoTo32 * (x / TwoTo32 + 1);
    if IsInt32(y) && (x - y) % TwoTo32 == 0 {
      // r - y is a multiple of 2^32 strictly between -2^32 and 2^32
      var k := (x - y) / TwoTo32 - (x - r) / TwoTo32;
      assert r - y == TwoTo32 * k;
      if k >= 1 || k <= -1 {
        assert false;
      }
    }
  }

  /** `x.ToString()` for an `int`: a minus sign before the digits of a negative number. */
  function IntText(x: int): string
  {
    if x < 0 then "-" + NatToString(-x) else NatToString(x)
  }

  /** The text of an `int` has a leading minus sign exactly for a negative number, and its
      digits read back as the number's absolute value. */
  lemma IntTextReadsBack(x: int)
    ensures var r := IntText(x);
            |r| >= 1 && (r[0] == '-' <==> x < 0)
            && var digits := if x < 0 then r[1..] else r;
               IsDigits(digits) && ParseDigits(digits) == (if x < 0 then -x else x)
  {
    if x < 0 {
      ParseNatToString(-x);
      assert ("-" + NatToString(-x))[1..] == NatToString(-x);
    } else {
      ParseNatToString(x);
    }
  }

  // ---------------------------------------------------------------------------
  // Fibonacci

  /** `ExampleTeasers.Fibonacci`: `n` itself for every `n <= 1` (negative ones included),
      else the 32-bit sum of the two preceding values. */
  function Fibonacci(n: int): (r: int)
    requires IsInt32(n)
    ensures IsInt32(r)
    decreases n
  {
    if n <= 1 then n else Wrap32(Fibonacci(n - 1) + Fibonacci(n - 2))
  }

  /** The base case covers every argument up to 1: negative arguments give themselves. */
  lemma {:induction false} FibonacciBase(n: int)
    requires Int32Min <= n <= 1
    ensures Fibonacci(n) == n
  {
  }

  /** Two consecutive Fibonacci numbers. */
  datatype Consecutive = Consecutive(current: int, next: int)

  /** The exact Fibonacci numbers as a reference: the pair of consecutive numbers from
      position `n`, by iterating `(a, b) -> (b, a + b)` from `(0, 1)` on unbounded integers. */
  function FibonacciPair(n: nat): Consecutive
  {
    if n == 0 then Consecutive(0, 1) else var p := FibonacciPair(n - 1); Consecutive(p.next, p.current + p.next)
  }

  /** The exact numbers never decrease. */
  lemma {:induction false} FibonacciPairOrdered(n: nat)
    ensures 0 <= FibonacciPair(n).current <= FibonacciPair(n).next
  {
    if n > 0 {
      FibonacciPairOrdered(n - 1);
    }
  }

  lemma {:induction false} FibonacciPairGrows(m: nat, n: nat)
    requires m <= n
    ensures FibonacciPair(m).next <= FibonacciPair(n).next
  {
    if m < n {
      FibonacciPairGrows(m, n - 1);
      FibonacciPairOrdered(n - 1);
    }
  }

  /** Five iterations at once: the pair moves on by the Fibonacci coefficients 3, 5, 8. */
  lemma FibonacciPairFiveSteps(n: nat)
    ensures var p := FibonacciPair(n);
            FibonacciPair(n + 5) == Consecutive(3 * p.current + 5 * p.next, 5 * p.current + 8 * p.next)
  {
    var p := FibonacciPair(n);
    assert FibonacciPair(n + 1) == Consecutive(p.next, p.current + p.next);
    assert FibonacciPair(n + 2) == Consecutive(p.current + p.next, p.current + 2 * p.next);
    assert FibonacciPair(n + 3) == Consecutive(p.current + 2 * p.next, 2 * p.current + 3 * p.next);
    assert FibonacciPair(n + 4) == Consecutive(2 * p.current + 3 * p.next, 3 * p.current + 5 * p.next);
  }

  lemma FibonacciPairAt45()
    ensures FibonacciPair(45) == Consecutive(1134903170, 1836311903)
  {
    FibonacciPairFiveSteps(0);
    FibonacciPairFiveSteps(5);
    FibonacciPairFiveSteps(10);
    FibonacciPairFiveSteps(15);
    FibonacciPairFiveSteps(20);
    FibonacciPairFiveSteps(25);
    FibonacciPairFiveSteps(30);
    FibonacciPairFiveSteps(35);
    FibonacciPairFiveSteps(40);
  }

  /** The largest argument whose Fibonacci number fits in an `int`. */
  const FibonacciBound: nat := 46

  lemma {:induction false} FibonacciPairAgrees(n: nat)
    requires n < FibonacciBound
    ensures FibonacciPair(n).current == Fibonacci(n) && FibonacciPair(n).next == Fibonacci(n + 1)
    ensures n >= 1 ==> Fibonacci(n + 1) == Fibonacci(n) + Fibonacci(n - 1)
  {
    if n > 0 {
      FibonacciPairAgrees(n - 1);
      var p := FibonacciPair(n - 1);
      assert FibonacciPair(n).current == p.next && FibonacciPair(n).next == p.current + p.next;
      assert IsInt32(p.current + p.next) by {
        FibonacciPairOrdered(n);
        FibonacciPairGrows(n, 45);
        FibonacciPairAt45();
      }
      FibonacciStep(n + 1, p.next, p.current);
    } else {
      assert Fibonacci(0) == 0 && Fibonacci(1) == 1;
    }
  }

  /** Where the sum of the two preceding values fits, no wrap-around happens. */
  lemma {:induction false} FibonacciStep(n: int, previous: int, beforePrevious: int)
    requires 2 <= n <= Int32Max
    requires previous == Fibonacci(n - 1) && beforePrevious == Fibonacci(n - 2)
    requires IsInt32(previous + beforePrevious)
    ensures Fibonacci(n) == previous + beforePrevious
  {
  }

  /** Up to 46 the 32-bit function gives the exact Fibonacci numbers. */
  lemma {:induction false} FibonacciExact(n: int)
    requires 0 <= n <= FibonacciBound
    ensures Fibonacci(n) == FibonacciPair(n).current
  {
    if n < FibonacciBound {
      FibonacciPairAgrees(n);
    } else {
      FibonacciPairAgrees(n - 1);
    }
  }

  /** At 47 the sum first leaves the range: the result is the exact number less 2^32, a
      negative `int`. */
  lemma FibonacciWrapsAt47()
    ensures FibonacciPair(FibonacciBound + 1).current > Int32Max
    ensures Fibonacci(FibonacciBound + 1) == FibonacciPair(FibonacciBound + 1).current - TwoTo32 < 0
  {
    FibonacciPairAgrees(FibonacciBound - 1);
    FibonacciPairAt45();
    var x := FibonacciPair(45).next + FibonacciPair(45).current;
    assert FibonacciPair(47).current == x == 2971215073;
    assert Fibonacci(47) == Wrap32(x);
  }

  /** Within that range the recursion is the plain sum of the two preceding numbers. */
  lemma {:induction false} FibonacciIsIterated(n: int)
    requires 2 <= n <= FibonacciBound
    ensures Fibonacci(n) == Fibonacci(n - 1) + Fibonacci(n - 2)
  {
    FibonacciPairAgrees(n - 1);
  }

  lemma FibonacciPairSum(n: nat)
    requires n >= 2
    ensures FibonacciPair(n).current == FibonacciPair(n - 1).current + FibonacciPair(n - 2).current
  {
    var p := FibonacciPair(n - 2);
    assert FibonacciPair(n - 1) == Consecutive(p.next, p.current + p.next);
  }

  /** The exact numbers at the first components never decrease either. */
  lemma FibonacciPairMonotone(m: nat, n: nat)
    requires m <= n
    ensures 0 <= FibonacciPair(m).current <= FibonacciPair(n).current
  {
    FibonacciPairOrdered(m);
    if m > 0 {
      FibonacciPairGrows(m - 1, n - 1);
    } else {
      FibonacciPairOrdered(n);
    }
  }

  /** ... and the numbers never decrease. */
  lemma {:induction false} FibonacciMonotone(m: int, n: int)
    requires 0 <= m <= n <= FibonacciBound
    ensures 0 <= Fibonacci(m) <= Fibonacci(n)
  {
    FibonacciExact(n);
    FibonacciExact(m);
    FibonacciPairMonotone(m, n);
  }

  /** The first ten Fibonacci numbers. */
  const FirstTen: seq<int> := [0, 1, 1, 2, 3, 5, 8, 13, 21, 34]

  lemma {:induction false} FibonacciFirstTen(k: nat)
    requires k < |FirstTen|
    ensures Fibonacci(k) == FirstTen[k]
  {
    if k >= 2 {
      FibonacciFirstTen(k - 1);
      FibonacciFirstTen(k - 2);
      FibonacciIsIterated(k);
      FirstTenAdds(k);
    } else {
      assert FirstTen[k] == k;
    }
  }

  lemma FirstTenAdds(k: nat)
    requires 2 <= k < |FirstTen|
    ensures FirstTen[k] == FirstTen[k - 1] + FirstTen[k - 2]
  {
  }

  const FibonacciTitle := "Math Problem: Fibonacci Sequence"
  const FibonacciCountLine := "First " + "10" + " Fibonacci numbers:"

  /** The text `Console.Write` leaves for a run of numbers: each followed by one space. */
  function NumbersLine(xs: seq<int>): string
  {
    if xs == [] then "" else NumbersLine(xs[..|xs| - 1]) + (IntText(xs[|xs| - 1]) + " ")
  }

  /** One more number extends the line by that number and a space. */
  lemma NumbersLinePrefix(xs: seq<int>, i: nat)
    requires i < |xs|
    ensures NumbersLine(xs[..i + 1]) == NumbersLine(xs[..i]) + (IntText(xs[i]) + " ")
  {
    assert xs[..i + 1][..i] == xs[..i];
  }

  /** `ExampleTeasers.FibonacciSequence`: the title, the count line, `Fibonacci(0)` to
      `Fibonacci(9)` on one line, and the blank line. */
  method FibonacciSequence() returns (output: seq<string>)
    ensures output == [FibonacciTitle, FibonacciCountLine, NumbersLine(FirstTen), ""]
  {
    var n := 10;
    var countLine := "First " + IntText(n) + " Fibonacci numbers:";
    var line := "";
    for i := 0 to n
      invariant line == NumbersLine(FirstTen[..i])
    {
      FibonacciFirstTen(i);
      NumbersLinePrefix(FirstTen, i);
      line := line + (IntText(Fibonacci(i)) + " ");
    }
    assert FirstTen[..n] == FirstTen;
    CountLineShown();
    output := [FibonacciTitle, countLine, line, ""];
  }

  /** The decimal text of a two-digit number. */
  lemma TwoDigits(n: nat)
    requires 10 <= n < 100
    ensures IntText(n) == [DigitChar(n / 10), DigitChar(n % 10)]
  {
    assert NatToString(n / 10) == [DigitChar(n / 10)];
  }

  /** The count is printed as `10`. */
  lemma CountLineShown()
    ensures "First " + IntText(10) + " Fibonacci numbers:" == FibonacciCountLine
  {
    TwoDigits(10);
    assert IntText(10) == "10";
  }

  // ---------------------------------------------------------------------------
  // Primality

  /** The definition: at least 2 and no divisor strictly between 1 and itself. */
  ghost predicate Prime(n: int)
  {
    n >= 2 && forall d :: 2 <= d < n ==> n % d != 0
  }

  lemma MulLeft(a: int, b: int, c: int)
    requires 0 <= a <= b && c >= 0
    ensures a * c <= b * c
  {
  }

  lemma ModOfMultiple(m: int, o: int)
    requires m > 0
    ensures (m * o) % m == 0
  {
    var q, r := (m * o) / m, (m * o) % m;
    assert m * o == m * q + r && 0 <= r < m;
    assert m * (o - q) == r;
    if o - q >= 1 {
      MulLeft(1, o - q, m);
    } else if o - q <= -1 {
      MulLeft(1, q - o, m);
    }
  }

  lemma OddFactor(m: int, o: int)
    requires (m * o) % 2 == 1
    ensures m % 2 == 1
  {
    var h, b := m / 2, m % 2;
    assert m * o == 2 * (h * o) + b * o;
  }

  /** An odd `n >= 3` with no odd divisor in `[3, i)` and `i * i > n` is prime: a divisor
      would give one no larger than its square root, and that one would be odd. */
  lemma {:induction false} NoSmallDivisor(n: int, i: int)
    requires n >= 3 && n % 2 == 1 && i >= 3 && i * i > n
    requires forall d :: 3 <= d < i && d % 2 == 1 ==> n % d != 0
    ensures Prime(n)
  {
    forall d | 2 <= d < n
      ensures n % d != 0
    {
      if n % d == 0 {
        var e := Cofactor(n, d);
        if d <= e {
          SmallFactorBelow(n, i, d, e);
        } else {
          SmallFactorBelow(n, i, e, d);
        }
        assert false;
      }
    }
  }

  /** A proper divisor `d` of `n` has a cofactor that is a proper divisor too. */
  lemma Cofactor(n: int, d: int) returns (e: int)
    requires 2 <= d < n && n % d == 0
    ensures n == d * e && 2 <= e
  {
    e := n / d;
    if e <= 1 {
      MulLeft(e, 1, d);
    }
  }

  /** The smaller factor `m` of an odd `n = m * o` with `i * i > n` is an odd divisor of
      `n` in `[3, i)`. */
  lemma SmallFactorBelow(n: int, i: int, m: int, o: int)
    requires n >= 3 && n % 2 == 1 && i >= 3 && i * i > n
    requires n == m * o && 2 <= m <= o
    ensures 3 <= m < i && m % 2 == 1 && n % m == 0
  {
    ModOfMultiple(m, o);
    OddFactor(m, o);
    MulLeft(m, o, m);
    if m >= i {
      MulLeft(i, m, i);
      MulLeft(i, m, m);
    }
  }

  lemma HasDivisor(n: int, d: int)
    requires 2 <= d < n && n % d == 0
    ensures !Prime(n)
  {
  }

  lemma NextCandidate(n: int, i: int)
    requires i % 2 == 1 && n % i != 0
    requires forall d :: 3 <= d < i && d % 2 == 1 ==> n % d != 0
    ensures forall d :: 3 <= d < i + 2 && d % 2 == 1 ==> n % d != 0
  {
    forall d | 3 <= d < i + 2 && d % 2 == 1
      ensures n % d != 0
    {
      if d >= i {
        assert d == i;
      }
    }
  }

  /** While the guard `i * i <= number` holds for an `i >= 3`, `i` is below the number. */
  lemma CandidateBelow(i: int, number: int)
    requires 3 <= i && i * i <= number
    ensures i < number
  {
    MulLeft(3, i, i);
  }

  /** `ExampleTeasers.IsPrime` as written: the guard `i * i <= number` is evaluated in 32-bit
      arithmetic. From `i = 46341` on the square wraps around, to a negative value that
      passes the guard. Later squares come back into range and stop the loop again for
      every prime below `WrapStopBound`, so those are still reported prime. Every answer
      `true` is right. For `int.MaxValue` (the prime 2^31 - 1), however, no square is ever
      above the number, and the loop runs on until `i` reaches the number itself, which
      divides it. */
  method IsPrimeAsWritten(number: int) returns (r: bool)
    requires IsInt32(number)
    ensures r ==> Prime(number)
    ensures number < 2 || (number > 2 && number % 2 == 0) ==> !r
    ensures number == 2 ==> r
    ensures number == Int32Max ==> !r
    ensures number < WrapStopBound ==> (r <==> Prime(number))
  {
    if number < 2 {
      return false;
    }
    if number == 2 {
      return true;
    }
    if number % 2 == 0 {
      HasDivisor(number, 2);
      return false;
    }
    var i := 3;
    while Wrap32(i * i) <= number
      invariant 3 <= i <= number && i % 2 == 1
      invariant number < SquareBound ==> i <= SquareRootBound
      invariant Prime(number) && number < WrapStopBound ==> i <= WrapStopRoot
      invariant forall d :: 3 <= d < i && d % 2 == 1 ==> number % d != 0
      decreases number - i
    {
      if number < SquareBound {
        GuardBelow(i, number);
      }
      if number % i == 0 {
        if i < number {
          HasDivisor(number, i);
        }
        return false;
      }
      if number < WrapStopBound && i <= WrapStopRoot {
        GuardStopsBy(i, number);
      }
      NextCandidate(number, i);
      NextOddBelow(i, number);
      i := i + 2;
    }
    WrappedAbove(i * i, number);
    NoSmallDivisor(number, i);
    return true;
  }

  /** An odd candidate that does not divide an odd number is at least two below it. */
  lemma NextOddBelow(i: int, n: int)
    requires 3 <= i <= n && i % 2 == 1 && n % 2 == 1 && n % i != 0
    ensures i + 2 <= n && (i + 2) % 2 == 1
  {
  }

  /** The largest odd number whose square fits in an `int`, and that square: below it the
      guard's square never wraps around. */
  const SquareRootBound: int := 46339
  const SquareBound: int := SquareRootBound * SquareRootBound

  /** An odd candidate no larger than `SquareRootBound` that passes the guard on a number
      below `SquareBound` passes it without wrap-around, so it is below the number, and the
      next candidate is still no larger than `SquareRootBound`. */
  lemma GuardBelow(i: int, number: int)
    requires 3 <= i <= SquareRootBound && i % 2 == 1
    requires Wrap32(i * i) <= number < SquareBound
    ensures i * i <= number && i < number && i + 2 <= SquareRootBound
  {
    MulLeft(i, SquareRootBound, i);
    MulLeft(i, SquareRootBound, SquareRootBound);
    assert i * i <= SquareBound <= Int32Max;
    CandidateBelow(i, number);
    if i == SquareRootBound {
      assert false;
    }
  }

  /** An odd candidate whose wrapped square comes back into range above `SquareBound`, and
      that wrapped square: the guard stops the loop at this candidate at the latest for every
      number below it. */
  const WrapStopRoot: int := 103621
  const WrapStopBound: int := 2147377049

  lemma WrapStopSquare()
    ensures SquareBound < WrapStopBound <= Int32Max
    ensures Wrap32(WrapStopRoot * WrapStopRoot) == WrapStopBound
  {
    assert WrapStopRoot * WrapStopRoot == 2 * TwoTo32 + WrapStopBound;
  }

  /** An odd candidate no larger than `WrapStopRoot` that passes the guard on a number below
      `WrapStopBound` is not `WrapStopRoot` itself, so the next candidate is no larger than
      `WrapStopRoot` either. */
  lemma GuardStopsBy(i: int, number: int)
    requires 3 <= i <= WrapStopRoot && i % 2 == 1
    requires Wrap32(i * i) <= number < WrapStopBound
    ensures i + 2 <= WrapStopRoot
  {
    WrapStopSquare();
  }

  /** A nonnegative result that is above an `int` after wrapping around was above it before. */
  lemma WrappedAbove(x: int, n: int)
    requires x >= 0 && IsInt32(n) && Wrap32(x) > n
    ensures x > n
  {
  }

  /** The square the guard compares is past the largest `int` for the first odd candidate
      beyond the square root of `int.MaxValue`, and wraps around to a negative value, which
      passes the guard for every number that is not negative. */
  lemma GuardWrapsAround()
    ensures 46341 * 46341 > Int32Max
    ensures Wrap32(46341 * 46341) == 46341 * 46341 - TwoTo32 < 0
  {
  }

  /** `ExampleTeasers.IsPrime` as evidently intended, with the guard's square computed
      without wrap-around: rejects everything below 2, accepts 2, rejects the other even
      numbers, then tries the odd divisors `3, 5, ...` while their square is at most the
      number. It decides primality for every `int`. */
  method IsPrime(number: int) returns (r: bool)
    requires IsInt32(number)
    ensures r <==> Prime(number)
    ensures number < 2 ==> !r
    ensures number == 2 ==> r
    ensures number > 2 && number % 2 == 0 ==> !r
  {
    if number < 2 {
      return false;
    }
    if number == 2 {
      return true;
    }
    if number % 2 == 0 {
      HasDivisor(number, 2);
      return false;
    }
    var i := 3;
    while i * i <= number
      invariant 3 <= i && i % 2 == 1
      invariant forall d :: 3 <= d < i && d % 2 == 1 ==> number % d != 0
      decreases number - i
    {
      CandidateBelow(i, number);
      if number % i == 0 {
        HasDivisor(number, i);
        return false;
      }
      NextCandidate(number, i);
      i := i + 2;
    }
    NoSmallDivisor(number, i);
    return true;
  }

  /** The numbers `PrimeChecker` tests, in order, and whether each is prime. */
  const PrimeTestNumbers: seq<int> := [2, 3, 4, 17, 25, 29, 100]
  const PrimeTestExpected: seq<bool> := [true, true, false, true, false, true, false]

  lemma PrimeTestVerdicts(k: nat)
    requires k < |PrimeTestNumbers|
    ensures Prime(PrimeTestNumbers[k]) == PrimeTestExpected[k]
  {
    var n := PrimeTestNumbers[k];
    if n == 4 || n == 100 {
      HasDivisor(n, 2);
    } else if n == 25 {
      HasDivisor(n, 5);
    } else if n == 17 {
      forall d | 3 <= d < 5 && d % 2 == 1 ensures 17 % d != 0 {
        assert d == 3;
      }
      NoSmallDivisor(17, 5);
    } else if n == 29 {
      forall d | 3 <= d < 7 && d % 2 == 1 ensures 29 % d != 0 {
        assert d == 3 || d == 5;
      }
      NoSmallDivisor(29, 7);
    }
  }

  const PrimeTitle := "Math Problem: Prime Number Checker"

  /** The line `PrimeChecker` writes for one number. */
  function VerdictLine(num: int, isPrime: bool): string
  {
    IntText(num) + (if isPrime then " is prime" else " is not prime")
  }

  /** `ExampleTeasers.PrimeChecker`: the title, one verdict line per test number in order,
      and the blank line; the verdicts are prime, prime, not, prime, not, prime, not. It
      calls `IsPrime` as written: all of its numbers are below `WrapStopBound`, where that
      version decides primality. */
  method PrimeChecker() returns (output: seq<string>)
    ensures |output| == |PrimeTestNumbers| + 2 && output[0] == PrimeTitle && output[|output| - 1] == ""
    ensures forall k :: 0 <= k < |PrimeTestNumbers| ==>
              output[k + 1] == VerdictLine(PrimeTestNumbers[k], PrimeTestExpected[k])
  {
    output := [PrimeTitle];
    for k := 0 to |PrimeTestNumbers|
      invariant |output| == k + 1 && output[0] == PrimeTitle
      invariant forall j :: 0 <= j < k ==> output[j + 1] == VerdictLine(PrimeTestNumbers[j], PrimeTestExpected[j])
    {
      var num := PrimeTestNumbers[k];
      var isPrime := IsPrimeAsWritten(num);
      PrimeTestVerdicts(k);
      output := output + [VerdictLine(num, isPrime)];
    }
    output := output + [""];
  }

  /** Some of those lines in the words the console shows. */
  lemma VerdictLinesShown()
    ensures VerdictLine(2, true) == "2" + " is prime"
    ensures VerdictLine(4, false) == "4" + " is not prime"
    ensures VerdictLine(17, true) == "17" + " is prime"
  {
    TwoDigits(17);
  }
}
