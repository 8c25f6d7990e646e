/** Two's-complement masking of integers, and what it means for power-of-two sizes. */
module Bits {

  function Abs(x: int): nat {
    if x < 0 then -x else x
  }

  /** The `&` of two integers in two's complement, wide enough never to overflow. */
  function And(x: int, y: int): int
    decreases Abs(x) + Abs(y)
  {
    if x == 0 || y == 0 then 0
    else if x == -1 then y
    else if y == -1 then x
    else 2 * And(x / 2, y / 2) + (x % 2) * (y % 2)
  }

  predicate IsPow2(n: int) {
    n == 1 || (n > 1 && n % 2 == 0 && IsPow2(n / 2))
  }

  function TwoTo(k: nat): int {
    if k == 0 then 1 else 2 * TwoTo(k - 1)
  }

  /** The powers of two are the numbers 2^k. */
  lemma {:induction false} PowersOfTwo(n: int)
    ensures IsPow2(n) <==> exists k: nat :: TwoTo(k) == n
    decreases if n < 0 then 0 else n
  {
    if IsPow2(n) {
      if n == 1 {
        assert TwoTo(0) == n;
      } else {
        PowersOfTwo(n / 2);
        var k: nat :| TwoTo(k) == n / 2;
        assert TwoTo(k + 1) == n;
      }
    }
    if k: nat :| TwoTo(k) == n {
      PowerIsPow2(k);
    }
  }

  lemma {:induction false} PowerIsPow2(k: nat)
    ensures TwoTo(k) >= 1 && IsPow2(TwoTo(k))
  {
    if k > 0 {
      PowerIsPow2(k - 1);
    }
  }

  /** Masking with 2^k - 1 is the remainder modulo 2^k, for negative operands too. */
  lemma {:induction false} MaskIsMod(x: int, n: int)
    requires IsPow2(n)
    ensures And(x, n - 1) == x % n
    decreases n
  {
    if n == 1 || x == 0 {
    } else if x == -1 {
      ModUnique(x, n, -1, n - 1);
    } else {
      MaskIsMod(x / 2, n / 2);
      MaskHalves(x, n);
      ModHalves(x, n / 2);
    }
  }

  lemma ModHalves(x: int, h: int)
    requires h > 0
    ensures x % (2 * h) == 2 * ((x / 2) % h) + x % 2
  {
    var q, r := (x / 2) / h, (x / 2) % h;
    assert x / 2 == q * h + r;
    MulDouble(q, h);
    ModUnique(x, 2 * h, q, 2 * r + x % 2);
  }

  lemma MulDouble(q: int, h: int)
    ensures q * (2 * h) == 2 * (q * h)
  {}

  lemma MaskHalves(x: int, n: int)
    requires n > 1 && n % 2 == 0 && x != 0 && x != -1
    ensures And(x, n - 1) == 2 * And(x / 2, n / 2 - 1) + x % 2
  {
    assert (n - 1) / 2 == n / 2 - 1 && (n - 1) % 2 == 1;
  }

  lemma {:induction false} AndSelf(x: int)
    ensures And(x, x) == x
    decreases Abs(x)
  {
    if x != 0 && x != -1 {
      AndSelf(x / 2);
    }
  }

  lemma {:induction false} AndOfNegatives(x: int, y: int)
    requires x < 0 && y < 0
    ensures And(x, y) < 0
    decreases Abs(x) + Abs(y)
  {
    if x != -1 && y != -1 {
      AndOfNegatives(x / 2, y / 2);
    }
  }

  /** The test `((n - 1) & n) != 0` rejects exactly what is neither zero nor a power of two. */
  lemma {:induction false} PowerTest(n: int)
    ensures And(n - 1, n) == 0 <==> n == 0 || IsPow2(n)
    decreases Abs(n)
  {
    if n < 0 {
      AndOfNegatives(n - 1, n);
    } else if n > 1 {
      var h := n / 2;
      if n % 2 == 1 {
        assert (n - 1) / 2 == h;
        AndSelf(h);
      } else {
        assert (n - 1) / 2 == h - 1;
        PowerTest(h);
      }
    }
  }

  lemma {:induction false} Pow2Divides(a: int, b: int)
    requires IsPow2(a) && IsPow2(b) && a <= b
    ensures b % a == 0
    decreases b
  {
    if a > 1 {
      Pow2Divides(a / 2, b / 2);
      var q := (b / 2) / (a / 2);
      assert b == q * a + 0 by { assert b / 2 == q * (a / 2); }
      ModUnique(b, a, q, 0);
    }
  }

  lemma Distribute(a: int, b: int, n: int)
    ensures (a + b) * n == a * n + b * n
    ensures (a - b) * n == a * n - b * n
  {}

  lemma MulBound(d: int, n: int)
    requires n >= 0
    ensures d >= 1 ==> d * n >= n
    ensures d <= -1 ==> d * n <= -n
  {
    if d >= 1 {
      Distribute(d - 1, 1, n);
      assert (d - 1) * n >= 0;
    } else if d <= -1 {
      Distribute(d + 1, 1, n);
      assert (-d - 1) * n >= 0;
      Distribute(0, d + 1, n);
    }
  }

  /** A quotient and a remainder in range are the quotient and the remainder. */
  lemma ModUnique(x: int, n: int, q: int, r: int)
    requires 0 <= r < n && x == q * n + r
    ensures x / n == q && x % n == r
  {
    var p, m := x / n, x % n;
    assert x == p * n + m;
    Distribute(p, q, n);
    assert (p - q) * n == r - m;
    MulBound(p - q, n);
  }

  /** Two numbers less than n apart are congruent modulo n only if they are equal. */
  lemma ModApart(a: int, b: int, n: int)
    requires a < b < a + n
    ensures a % n != b % n
  {
    var p, q := a / n, b / n;
    var m, r := a % n, b % n;
    assert a == p * n + m && b == q * n + r;
    Distribute(q, p, n);
    MulBound(q - p, n);
    if m == r && q == p {
      assert false;
    }
  }

  lemma ModAdd(a: int, b: int, n: int)
    requires n > 0
    ensures (a % n + b) % n == (a + b) % n
  {
    var c := a % n + b;
    Distribute(a / n, c / n, n);
    ModUnique(a + b, n, a / n + c / n, c % n);
  }

  lemma ModSub(a: int, b: int, n: int)
    requires b <= a < b + n
    ensures (a % n - b % n) % n == a - b
  {
    Distribute(b / n, a / n, n);
    ModUnique(a % n - b % n, n, b / n - a / n, a - b);
  }

  lemma ModMinus(a: int, b: int, n: int)
    requires n > 0
    ensures (a - b % n) % n == (a - b) % n
  {
    var c := a - b % n;
    Distribute(c / n, b / n, n);
    ModUnique(a - b, n, c / n - b / n, c % n);
  }

  lemma ModOfDouble(a: int, n: int)
    requires n > 0
    ensures (a % (2 * n)) % n == a % n
  {
    var p, s := a / (2 * n), a % (2 * n);
    assert p * (2 * n) == (2 * p) * n by { MulDouble(p, n); }
    Distribute(2 * p, s / n, n);
    ModUnique(a, n, 2 * p + s / n, s % n);
  }

  lemma MaskOfSum(a: int, k: int, m: int)
    requires IsPow2(m)
    ensures And(And(a, m - 1) + k, m - 1) == And(a + k, m - 1)
  {
    MaskIsMod(a, m);
    var masked := And(a, m - 1);
    MaskIsMod(masked + k, m);
    MaskIsMod(a + k, m);
    ModAdd(a, k, m);
  }

  lemma MaskOfDifference(a: int, b: int, m: int)
    requires IsPow2(m) && b <= a < b + m
    ensures And(And(a, m - 1) - And(b, m - 1), m - 1) == a - b
  {
    MaskIsMod(a, m);
    MaskIsMod(b, m);
    MaskIsMod(And(a, m - 1) - And(b, m - 1), m);
    ModSub(a, b, m);
  }

  lemma MaskOfPlus(a: int, b: int, masked: int, d: int, m: int)
    requires IsPow2(m) && masked == And(b, m - 1) && d == a + b
    ensures And(a + masked, m - 1) == And(d, m - 1)
  {
    MaskOfSum(b, a, m);
  }

  lemma MaskOfMinus(a: int, b: int, masked: int, d: int, m: int)
    requires IsPow2(m) && masked == And(b, m - 1) && d == a - b
    ensures And(a - masked, m - 1) == And(d, m - 1)
  {
    MaskIsMod(b, m);
    MaskIsMod(a - masked, m);
    MaskIsMod(d, m);
    ModMinus(a, b, m);
  }

  /** Masking commutes with a shift that stays in range. */
  lemma MaskOfShift(x: int, k: int, y: int, m: int)
    requires IsPow2(m) && y == x + k && 0 <= And(x, m - 1) + k < m
    ensures And(y, m - 1) == And(x, m - 1) + k
  {
    MaskOfSum(x, k, m);
    var z := And(x, m - 1) + k;
    MaskIsMod(z, m);
    ModUnique(z, m, 0, z);
  }

  /** A number below the size is its own remainder. */
  lemma MaskBelow(x: int, m: int)
    requires IsPow2(m) && 0 <= x < m
    ensures And(x, m - 1) == x
  {
    MaskIsMod(x, m);
    ModUnique(x, m, 0, x);
  }

  lemma ModOfDoubleSum(x: int, masked: int, j: int, n: int)
    requires n > 0 && masked == x % (2 * n)
    ensures (masked + j) % n == (x + j) % n
  {
    ModOfDouble(x, n);
    ModAdd(masked, j, n);
    ModAdd(x, j, n);
  }
}
