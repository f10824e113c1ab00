/** The Fibonacci helpers: the pair-shifting recursion in C
    (c_extensions/example_module.c) and in Python (c_extensions/fib.py). Both
    update a two-cell buffer in place and recurse on the remaining count. */
module Fibonacci {

  /** The Fibonacci numbers, F(0) = 0 and F(1) = 1. */
  function Fib(n: nat): nat {
    if n < 2 then n else Fib(n - 2) + Fib(n - 1)
  }

  /** What fibC and myFib promise: the n-th Fibonacci number, and 0 for every
      n below 1. */
  function FibValue(n: int): (v: nat)
    ensures n <= 0 ==> v == 0
  {
    if n < 1 then 0 else Fib(n)
  }

  /** Term k of the sequence that starts a, b and in which every later term is
      the sum of the two before it plus c. */
  function Shifted(a: int, b: int, c: int, k: nat): int {
    if k == 0 then a
    else if k == 1 then b
    else Shifted(a, b, c, k - 2) + Shifted(a, b, c, k - 1) + c
  }

  /** Shifting the pair once starts the same sequence one term later. */
  lemma {:induction false} ShiftedStep(a: int, b: int, c: int, k: nat)
    ensures Shifted(b, a + b + c, c, k) == Shifted(a, b, c, k + 1)
  {
    if k >= 2 {
      ShiftedStep(a, b, c, k - 2);
      ShiftedStep(a, b, c, k - 1);
    }
  }

  /** Starting from 0, 1 with nothing added gives the Fibonacci numbers. */
  lemma {:induction false} ShiftedIsFib(k: nat)
    ensures Shifted(0, 1, 0, k) == Fib(k)
  {
    if k >= 2 {
      ShiftedIsFib(k - 2);
      ShiftedIsFib(k - 1);
    }
  }

  /** The Fibonacci numbers never decrease. */
  lemma {:induction false} FibMonotone(j: nat, k: nat)
    requires j <= k
    ensures Fib(j) <= Fib(k)
    decreases k - j
  {
    if j < k {
      FibMonotone(j + 1, k);
      if j >= 1 {
        assert Fib(j + 1) == Fib(j - 1) + Fib(j);
      }
    }
  }

  /** seq in C: below 1 it returns arr[0] and leaves the buffer alone;
      otherwise it replaces (arr[0], arr[1]) with (arr[1], arr[0] + arr[1])
      and recurses on target - 1. After target >= 1 steps the buffer holds
      terms target and target + 1 of the sequence it started with. C int
      arithmetic is taken as exact; IntRange states where that holds for
      fibC. */
  method Seq(target: int, arr: array<int>) returns (r: int)
    requires arr.Length >= 2
    modifies arr
    decreases target
    ensures target < 1 ==> r == old(arr[0]) && arr[..] == old(arr[..])
    ensures target >= 1 ==>
      r == Shifted(old(arr[0]), old(arr[1]), 0, target) && arr[0] == r &&
      arr[1] == Shifted(old(arr[0]), old(arr[1]), 0, target + 1) &&
      arr[2..] == old(arr[2..])
  {
    if target < 1 {
      return arr[0];
    }
    ghost var a, b := arr[0], arr[1];
    var sum := arr[0] + arr[1];
    arr[0] := arr[1];
    arr[1] := sum;
    r := Seq(target - 1, arr);
    ShiftedStep(a, b, 0, target - 1);
    ShiftedStep(a, b, 0, target);
  }

  /** fibC: seq from the pair 0, 1. */
  method FibC(n: int) returns (r: int)
    ensures r == FibValue(n)
  {
    var arr := new int[2];
    arr[0], arr[1] := 0, 1;
    r := Seq(n, arr);
    if n >= 1 {
      ShiftedIsFib(n);
    }
  }

  /** Python's sum over a list of ints. */
  function Sum(s: seq<int>): int {
    if |s| == 0 then 0 else s[0] + Sum(s[1..])
  }

  /** mySeq in Python: like seq, except that the new second item is sum(arr),
      the sum of the whole list, so any items beyond the first two are added
      at every step. They are never changed themselves. */
  method MySeq(target: int, arr: array<int>) returns (r: int)
    requires arr.Length >= 2
    modifies arr
    decreases target
    ensures target < 1 ==> r == old(arr[0]) && arr[..] == old(arr[..])
    ensures target >= 1 ==>
      r == Shifted(old(arr[0]), old(arr[1]), Sum(old(arr[2..])), target) && arr[0] == r &&
      arr[1] == Shifted(old(arr[0]), old(arr[1]), Sum(old(arr[2..])), target + 1) &&
      arr[2..] == old(arr[2..])
  {
    if target < 1 {
      return arr[0];
    }
    ghost var a, b, c := arr[0], arr[1], Sum(arr[2..]);
    assert arr[..][1..][1..] == arr[2..];
    var nextFib := Sum(arr[..]);
    assert nextFib == a + b + c by {
      assert Sum(arr[..]) == arr[0] + Sum(arr[..][1..]);
      assert Sum(arr[..][1..]) == arr[1] + Sum(arr[..][1..][1..]);
    }
    arr[0] := arr[1];
    arr[1] := nextFib;
    assert arr[2..] == old(arr[2..]);
    r := MySeq(target - 1, arr);
    ShiftedStep(a, b, c, target - 1);
    ShiftedStep(a, b, c, target);
  }

  /** myFib: mySeq from the list [0, 1]. */
  method MyFib(n: int) returns (r: int)
    ensures r == FibValue(n)
  {
    var arr := new int[2];
    arr[0], arr[1] := 0, 1;
    assert arr[2..] == [];
    r := MySeq(n, arr);
    if n >= 1 {
      ShiftedIsFib(n);
    }
  }

  /** The largest value of a 32-bit C int. */
  const IntMax: int := 0x7FFF_FFFF

  lemma FibValues()
    ensures Fib(46) == 1836311903 && Fib(47) == 2971215073
  {
    assert Fib(2) == 1;
    assert Fib(3) == 2;
    assert Fib(4) == 3;
    assert Fib(5) == 5;
    assert Fib(6) == 8;
    assert Fib(7) == 13;
    assert Fib(8) == 21;
    assert Fib(9) == 34;
    assert Fib(10) == 55;
    assert Fib(11) == 89;
    assert Fib(12) == 144;
    assert Fib(13) == 233;
    assert Fib(14) == 377;
    assert Fib(15) == 610;
    assert Fib(16) == 987;
    assert Fib(17) == 1597;
    assert Fib(18) == 2584;
    assert Fib(19) == 4181;
    assert Fib(20) == 6765;
    assert Fib(21) == 10946;
    assert Fib(22) == 17711;
    assert Fib(23) == 28657;
    assert Fib(24) == 46368;
    assert Fib(25) == 75025;
    assert Fib(26) == 121393;
    assert Fib(27) == 196418;
    assert Fib(28) == 317811;
    assert Fib(29) == 514229;
    assert Fib(30) == 832040;
    assert Fib(31) == 1346269;
    assert Fib(32) == 2178309;
    assert Fib(33) == 3524578;
    assert Fib(34) == 5702887;
    assert Fib(35) == 9227465;
    assert Fib(36) == 14930352;
    assert Fib(37) == 24157817;
    assert Fib(38) == 39088169;
    assert Fib(39) == 63245986;
    assert Fib(40) == 102334155;
    assert Fib(41) == 165580141;
    assert Fib(42) == 267914296;
    assert Fib(43) == 433494437;
    assert Fib(44) == 701408733;
    assert Fib(45) == 1134903170;
    assert Fib(46) == 1836311903;
    assert Fib(47) == 2971215073;
  }

  /** For n <= 45 every value fibC stores, F(0) up to F(n + 1), fits in a C
      int, so fibC and the unbounded myFib agree there. From n = 46 on the
      last sum, F(47), does not fit although F(46) itself does. */
  lemma IntRange(n: int)
    ensures n <= 45 ==> forall k: nat :: k <= n + 1 ==> Fib(k) <= IntMax
    ensures n >= 46 ==> Fib(n + 1) > IntMax
  {
    FibValues();
    if n <= 45 {
      forall k: nat | k <= n + 1
        ensures Fib(k) <= IntMax
      {
        FibMonotone(k, 46);
      }
    } else {
      FibMonotone(47, n + 1);
    }
  }
}
