/** Bitwise operators on unsigned integers of any width, and powers of two. */
module Bits {
  function And(a: nat, b: nat): nat
    decreases a
  {
    if a == 0 then 0 else (if a % 2 == 1 && b % 2 == 1 then 1 else 0) + 2 * And(a / 2, b / 2)
  }

  function Xor(a: nat, b: nat): nat
    decreases a + b
  {
    if a == 0 && b == 0 then 0 else (a + b) % 2 + 2 * Xor(a / 2, b / 2)
  }

  function Pow2(k: nat): (p: nat)
    ensures p >= 1
  {
    if k == 0 then 1 else 2 * Pow2(k - 1)
  }

  ghost predicate IsPow2(n: nat) {
    exists k: nat :: n == Pow2(k)
  }

  lemma {:induction false} Pow2Monotone(i: nat, j: nat)
    requires i <= j
    ensures Pow2(i) <= Pow2(j)
    decreases j
  {
    if i == j {
    } else {
      Pow2Monotone(i, j - 1);
    }
  }

  lemma {:induction false} Pow2Add(i: nat, j: nat)
    ensures Pow2(i + j) == Pow2(i) * Pow2(j)
  {
    if i == 0 {
    } else {
      Pow2Add(i - 1, j);
      Doubled(Pow2(i - 1), Pow2(j));
    }
  }

  lemma Doubled(a: int, b: int)
    ensures 2 * (a * b) == (2 * a) * b
  {
  }

  lemma {:induction false} AndZero(a: nat)
    ensures And(a, 0) == 0
  {
    if a == 0 {
    } else {
      AndZero(a / 2);
    }
  }

  lemma {:induction false} AndSelf(a: nat)
    ensures And(a, a) == a
  {
    if a == 0 {
    } else {
      AndSelf(a / 2);
    }
  }

  /** Masking with 2^k - 1 is the remainder modulo 2^k. */
  lemma {:induction false} AndMask(x: nat, k: nat)
    ensures And(x, Pow2(k) - 1) == x % Pow2(k)
    decreases k
  {
    if k == 0 {
      AndZero(x);
    } else if x == 0 {
    } else {
      AndMask(x / 2, k - 1);
      var p := Pow2(k - 1);
      assert Pow2(k) == 2 * p && (2 * p - 1) / 2 == p - 1 && (2 * p - 1) % 2 == 1;
      ModHalves(x, p);
    }
  }

  lemma ModHalves(x: nat, p: nat)
    requires p > 0
    ensures x % (2 * p) == x % 2 + 2 * ((x / 2) % p)
  {
    var h := x / 2;
    var q := h / p;
    var r := h % p;
    assert h == q * p + r;
    assert x == 2 * h + x % 2 == q * (2 * p) + (2 * r + x % 2) by {
      assert 2 * (q * p) == q * (2 * p);
    }
    ModUnique(x, 2 * p, q, 2 * r + x % 2);
  }

  lemma MultipleFarFromZero(d: int, m: int)
    requires m > 0
    ensures d >= 1 ==> d * m >= m
    ensures d <= -1 ==> d * m <= -m
  {
    if d >= 1 {
      assert d * m == m + (d - 1) * m;
    } else if d <= -1 {
      assert d * m == -m + (d + 1) * m;
    }
  }

  lemma ModUnique(x: int, m: int, q: int, r: int)
    requires m > 0 && x == q * m + r && 0 <= r < m
    ensures x % m == r && x / m == q
  {
    var q', r' := x / m, x % m;
    assert x == m * q' + r';
    assert (q' - q) * m == q' * m - q * m == r - r';
    MultipleFarFromZero(q' - q, m);
  }

  lemma {:induction false} XorUnfold(a: nat, b: nat)
    ensures Xor(a, b) % 2 == (a + b) % 2 && Xor(a, b) / 2 == Xor(a / 2, b / 2)
  {
    var low, high := (a + b) % 2, Xor(a / 2, b / 2);
    assert (low + 2 * high) % 2 == low && (low + 2 * high) / 2 == high;
  }

  /** Bit k of a number. */
  function Bit(a: nat, k: nat): nat {
    a / Pow2(k) % 2
  }

  lemma BitOfHalf(a: nat, k: nat)
    requires k > 0
    ensures Bit(a, k) == Bit(a / 2, k - 1)
  {
    var p := Pow2(k - 1);
    var h := a / 2;
    var q, r := h / p, h % p;
    assert h == q * p + r && a == 2 * h + a % 2;
    assert 2 * (q * p) == q * (2 * p);
    ModUnique(a, 2 * p, q, 2 * r + a % 2);
  }

  /** Bit by bit: a sum without carry, and a product. */
  lemma {:induction false} BitByBit(a: nat, b: nat, k: nat)
    ensures Bit(Xor(a, b), k) == (Bit(a, k) + Bit(b, k)) % 2
    ensures Bit(And(a, b), k) == Bit(a, k) * Bit(b, k)
    decreases k
  {
    XorUnfold(a, b);
    AndUnfold(a, b);
    if k > 0 {
      BitOfHalf(a, k);
      BitOfHalf(b, k);
      BitOfHalf(Xor(a, b), k);
      BitOfHalf(And(a, b), k);
      BitByBit(a / 2, b / 2, k - 1);
    } else {
      assert forall x: nat :: Bit(x, 0) == x % 2;
    }
  }

  lemma {:induction false} AndUnfold(a: nat, b: nat)
    ensures And(a, b) % 2 == a % 2 * (b % 2) && And(a, b) / 2 == And(a / 2, b / 2)
  {
    var low, high := if a % 2 == 1 && b % 2 == 1 then 1 else 0, And(a / 2, b / 2);
    assert (low + 2 * high) % 2 == low && (low + 2 * high) / 2 == high;
  }

  /** y is a when it has a's rest and its low bit is a's with b's added twice. */
  lemma LowBitBack(x: nat, y: nat, a: nat, b: nat)
    requires x % 2 == (a + b) % 2 && y % 2 == (x + b) % 2 && y / 2 == a / 2
    ensures y == a
  {
  }

  lemma {:induction false} XorTwice(a: nat, b: nat)
    ensures Xor(Xor(a, b), b) == a
    decreases a + b
  {
    if a == 0 && b == 0 {
    } else {
      var x := Xor(a, b);
      XorUnfold(a, b);
      XorUnfold(x, b);
      XorTwice(a / 2, b / 2);
      LowBitBack(x, Xor(x, b), a, b);
    }
  }

  lemma {:induction false} XorBound(a: nat, b: nat, k: nat)
    requires a < Pow2(k) && b < Pow2(k)
    ensures Xor(a, b) < Pow2(k)
    decreases k
  {
    if k == 0 || (a == 0 && b == 0) {
    } else {
      XorBound(a / 2, b / 2, k - 1);
    }
  }

  /** num & (num - 1) clears the lowest set bit: for a power of two nothing is left. */
  lemma {:induction false} ClearLowest(n: nat)
    requires n > 0
    ensures And(n, n - 1) < n
    ensures And(n, n - 1) == 0 <==> IsPow2(n)
    ensures forall k: nat :: Pow2(k) <= n && And(n, n - 1) != 0 ==> Pow2(k) <= And(n, n - 1)
    decreases n
  {
    var h := n / 2;
    if n % 2 == 1 {
      assert (n - 1) / 2 == h && (n - 1) % 2 == 0;
      AndSelf(h);
      assert And(n, n - 1) == 2 * h == n - 1;
      if n == 1 {
        assert n == Pow2(0);
      }
      assert forall k: nat :: Pow2(k) % 2 == if k == 0 then 1 else 0;
    } else {
      assert (n - 1) / 2 == h - 1 && (n - 1) % 2 == 1;
      ClearLowest(h);
      assert And(n, n - 1) == 2 * And(h, h - 1);
      if IsPow2(h) {
        var k: nat :| h == Pow2(k);
        assert n == Pow2(k + 1);
      }
      forall k: nat | n == Pow2(k) ensures IsPow2(h) {
        assert h == Pow2(k - 1);
      }
      forall k: nat | Pow2(k) <= n && And(n, n - 1) != 0 ensures Pow2(k) <= And(n, n - 1) {
        if k > 0 {
          assert Pow2(k - 1) <= h;
        }
      }
    }
  }
}
