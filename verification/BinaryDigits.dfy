/** Binary digits of a number, and what adding one does to them. */
module BinaryDigits {
  import opened Powers

  // The k-th binary digit of n is 1.
  predicate Digit(n: nat, k: nat) {
    if k == 0 then n % 2 == 1 else Digit(n / 2, k - 1)
  }

  // n with its lowest k binary digits cleared.
  function Floor(n: nat, k: nat): (r: nat)
    ensures r <= n < r + Pow2(k)
  {
    if k == 0 then n else 2 * Floor(n / 2, k - 1)
  }

  lemma {:induction false} NoDigits(k: nat)
    ensures !Digit(0, k)
  {
    if k > 0 {
      NoDigits(k - 1);
    }
  }

  function PopCount(n: nat): nat {
    if n == 0 then 0 else n % 2 + PopCount(n / 2)
  }

  lemma PowersUpToTop()
    ensures Pow2(0) == 1 && Pow2(1) == 2 && Pow2(2) == 4 && Pow2(3) == 8 && Pow2(4) == 16 && Pow2(5) == 32
    ensures Pow2(6) == 64 && Pow2(7) == 128 && Pow2(8) == 256 && Pow2(9) == 512 && Pow2(10) == 1024
  {
    assert Pow2(3) == 8;
    assert Pow2(6) == 8 * Pow2(3);
    assert Pow2(9) == 8 * Pow2(6);
  }

  // Clearing one digit more subtracts its weight.
  lemma {:induction false} FloorStep(n: nat, k: nat)
    ensures Floor(n, k) == Floor(n, k + 1) + (if Digit(n, k) then Pow2(k) else 0)
  {
    if k > 0 {
      FloorStep(n / 2, k - 1);
    }
  }

  lemma {:induction false} FloorMonotone(n: nat, j: nat, k: nat)
    requires j <= k
    ensures Floor(n, k) <= Floor(n, j)
  {
    if j < k {
      FloorMonotone(n, j, k - 1);
      FloorStep(n, k - 1);
    }
  }

  // Floor leaves a multiple of 2^k.
  lemma {:induction false} FloorMultiple(n: nat, k: nat) returns (q: nat)
    ensures Floor(n, k) == q * Pow2(k)
  {
    if k == 0 {
      q := n;
    } else {
      q := FloorMultiple(n / 2, k - 1);
      assert 2 * (q * Pow2(k - 1)) == q * Pow2(k);
    }
  }

  // The lowest j digits of n are all ones.
  predicate Ones(n: nat, j: nat) {
    Floor(n, j) + Pow2(j) == n + 1
  }

  lemma OnesNext(n: nat, j: nat)
    requires Ones(n, j)
    ensures Ones(n, j + 1) <==> Digit(n, j)
  {
    FloorStep(n, j);
  }

  // Adding one carries through the trailing ones ...
  lemma {:induction false} CarryBelow(n: nat, j: nat, k: nat)
    requires Ones(n, j) && k <= j
    ensures Floor(n + 1, k) == n + 1
  {
    if k > 0 {
      assert n % 2 == 1;
      CarryBelow(n / 2, j - 1, k - 1);
    }
  }

  // ... and leaves the digits above the first zero alone.
  lemma {:induction false} CarryAbove(n: nat, j: nat, k: nat)
    requires Ones(n, j) && !Digit(n, j) && j < k
    ensures Floor(n + 1, k) == Floor(n, k)
  {
    if j > 0 {
      assert n % 2 == 1;
      CarryAbove(n / 2, j - 1, k - 1);
    }
  }

  lemma {:induction false} OnesDigits(n: nat, l: nat, k: nat)
    requires Ones(n, l) && k < l
    ensures Digit(n, k)
  {
    assert n % 2 == 1;
    if k > 0 {
      OnesDigits(n / 2, l - 1, k - 1);
    }
  }

  lemma FloorUp(n: nat, l: nat)
    requires Ones(n, l)
    ensures Floor(n, l) < n + 1
  {
  }

  // What adding one does to digit k, when the low l digits are ones and the next
  // one is zero.
  lemma DigitCarry(n: nat, m: nat, l: nat, k: nat)
    requires m == n + 1 && Ones(n, l) && (l <= k ==> !Digit(n, l))
    ensures k < l ==> Digit(n, k) && !Digit(m, k)
    ensures k == l ==> Digit(m, k)
    ensures k > l ==> (Digit(m, k) <==> Digit(n, k))
  {
    hide Digit, Floor, Ones;
    FloorStep(n, k);
    FloorStep(m, k);
    if k < l {
      OnesDigits(n, l, k);
      CarryBelow(n, l, k);
      CarryBelow(n, l, k + 1);
    } else {
      CarryAbove(n, l, k + 1);
      if k == l {
        CarryBelow(n, l, l);
        FloorUp(n, l);
      } else {
        CarryAbove(n, l, k);
      }
    }
  }

  // The digits as the sum of the first k of them.
  function DigitSum(n: nat, k: nat): nat {
    if k == 0 then 0 else DigitSum(n, k - 1) + (if Digit(n, k - 1) then 1 else 0)
  }

  // How adding one changes the number of ones among the first k digits.
  lemma {:induction false} DigitSumCarry(n: nat, m: nat, l: nat, k: nat)
    requires m == n + 1 && Ones(n, l) && (l < k ==> !Digit(n, l))
    ensures k <= l ==> DigitSum(n, k) == k && DigitSum(m, k) == 0
    ensures k > l ==> DigitSum(m, k) + l == DigitSum(n, k) + 1
  {
    if k > 0 {
      DigitSumCarry(n, m, l, k - 1);
      DigitCarry(n, m, l, k - 1);
    }
  }

  lemma {:induction false} DigitSumHalf(n: nat, k: nat)
    requires k > 0
    ensures DigitSum(n, k) == n % 2 + DigitSum(n / 2, k - 1)
  {
    if k > 1 {
      DigitSumHalf(n, k - 1);
    }
  }

  lemma {:induction false} DigitSumIsPopCount(n: nat, k: nat)
    ensures DigitSum(n, k) == PopCount(n % Pow2(k))
  {
    if k > 0 {
      DigitSumHalf(n, k);
      DigitSumIsPopCount(n / 2, k - 1);
      ModHalf(n, k);
      if n % Pow2(k) == 0 { assert PopCount(n / 2 % Pow2(k - 1)) == 0; }
    } else {
      assert n % Pow2(0) == 0;
    }
  }

  lemma ModHalf(n: nat, k: nat)
    requires k > 0
    ensures n % Pow2(k) == n % 2 + 2 * (n / 2 % Pow2(k - 1))
  {
    ModIsRest(n, k);
    ModIsRest(n / 2, k - 1);
  }

  lemma ModIsRest(n: nat, k: nat)
    ensures n % Pow2(k) == n - Floor(n, k)
  {
    var q := FloorMultiple(n, k);
    DivUnique(n, Pow2(k), q, n - Floor(n, k));
  }

  lemma DivUnique(n: nat, d: nat, q: nat, r: nat)
    requires d >= 1 && r < d && n == q * d + r
    ensures n / d == q && n % d == r
  {
    var a, b := n / d, n % d;
    assert n == a * d + b;
    TimesMonotone(q + 1, a, d);
    TimesMonotone(a + 1, q, d);
  }

  lemma TimesMonotone(a: nat, b: nat, d: nat)
    ensures a <= b ==> a * d <= b * d
  {
    if a <= b {
      assert b * d == a * d + (b - a) * d;
    }
  }

  lemma FloorDivides(n: nat, k: nat, d: nat)
    requires d == Pow2(k)
    ensures Floor(n, k) == n / d * d
  {
    var q := FloorMultiple(n, k);
    DivUnique(n, d, q, n - Floor(n, k));
  }

  lemma FloorTen(n: nat)
    ensures Floor(n, 10) == n / 1024 * 1024
  {
    PowersUpToTop();
    FloorDivides(n, 10, 1024);
  }

  lemma {:induction false} PopCountPositive(n: nat)
    requires n > 0
    ensures PopCount(n) > 0
  {
    if n % 2 == 0 {
      PopCountPositive(n / 2);
    }
  }
}
