/** The range of a 64-bit word, and remainders and floors with a variable divisor. */
module Arithmetic {

  const U64: nat := 0x1_0000_0000_0000_0000

  lemma AtLeastOnce(a: int, n: nat)
    requires 1 <= a
    ensures n <= a * n
  {
    assert a * n == n + (a - 1) * n;
    assert 0 <= (a - 1) * n;
  }

  lemma TimesIsMonotone(a: int, b: int, n: nat)
    requires a <= b
    ensures a * n <= b * n
  {
    assert b * n - a * n == (b - a) * n;
    assert 0 <= (b - a) * n;
  }

  lemma QuotientsAgree(q: int, q': int, n: nat)
    requires 0 - n < (q - q') * n < n
    ensures q == q'
  {
    if q > q' {
      AtLeastOnce(q - q', n);
    } else if q < q' {
      AtLeastOnce(q' - q, n);
    }
  }

  // ------------------------------------------------------------------
  // Remainders

  lemma ModUnique(x: int, q: int, r: nat, n: nat)
    requires r < n && x == q * n + r
    ensures x % n == r
  {
    assert x == (x / n) * n + x % n;
    assert (q - x / n) * n == q * n - (x / n) * n;
    QuotientsAgree(q, x / n, n);
  }

  lemma ModDistinct(i: int, j: int, n: nat)
    requires i < j < i + n
    ensures i % n != j % n
  {
    if i % n == j % n {
      assert i == (i / n) * n + i % n && j == (j / n) * n + j % n;
      assert (j / n - i / n) * n == (j / n) * n - (i / n) * n;
      QuotientsAgree(j / n, i / n, n);
    }
  }

  lemma ModSucc(i: int, n: nat)
    requires 0 < n
    ensures (i % n + 1) % n == (i + 1) % n
  {
    var q, r := i / n, i % n;
    assert i == q * n + r;
    if r + 1 == n {
      assert i + 1 == (q + 1) * n + 0;
      ModUnique(i + 1, q + 1, 0, n);
    } else {
      ModUnique(i + 1, q, r + 1, n);
      ModUnique(r + 1, 0, r + 1, n);
    }
  }

  // ------------------------------------------------------------------
  // Floors

  function Floor(a: nat, d: nat): nat
    requires 0 < d
  {
    a / d
  }

  lemma FloorBounds(a: nat, d: nat)
    requires 0 < d
    ensures Floor(a, d) * d <= a < Floor(a, d) * d + d
  {
  }

  lemma FloorUnique(a: nat, q: int, d: nat)
    requires 0 < d && q * d <= a < q * d + d
    ensures Floor(a, d) == q
  {
    var q' := Floor(a, d);
    FloorBounds(a, d);
    assert (q - q') * d == q * d - q' * d;
    QuotientsAgree(q, q', d);
  }

  lemma FloorWithin(a: nat, d: nat, lo: nat, hi: nat)
    requires 0 < d && lo * d <= a <= hi * d
    ensures lo <= Floor(a, d) <= hi
  {
    var q := Floor(a, d);
    FloorBounds(a, d);
    if q < lo {
      TimesIsMonotone(q + 1, lo, d);
    } else if q > hi {
      TimesIsMonotone(hi + 1, q, d);
    }
  }

  lemma FloorAtLeast(a: nat, d: nat, m: nat)
    requires 0 < d
    ensures Floor(a, d) >= m <==> a >= m * d
  {
    var q := Floor(a, d);
    FloorBounds(a, d);
    if q >= m {
      TimesIsMonotone(m, q, d);
    } else {
      TimesIsMonotone(q + 1, m, d);
      Distribute(q, 1, d);
    }
  }

  /** Numerators at least a divisor apart have different quotients. */
  lemma FloorGrows(a: nat, b: nat, d: nat)
    requires 0 < d && a + d <= b
    ensures Floor(a, d) < Floor(b, d)
  {
    FloorBounds(a, d);
    FloorBounds(b, d);
    if Floor(b, d) <= Floor(a, d) {
      TimesIsMonotone(Floor(b, d), Floor(a, d), d);
    }
  }

  lemma Distribute(a: int, b: int, d: int)
    ensures (a + b) * d == a * d + b * d
  {
  }

  lemma DoubleLast(h: int, d: int)
    ensures (2 * h) * d == h * (2 * d)
  {
  }

  /** Dividing, adding and halving loses no more than dividing once. */
  lemma NestedFloor(w: nat, d: nat, x: nat)
    requires 0 < d
    ensures (Floor(w, d) + x) / 2 == Floor(w + d * x, 2 * d)
  {
    var q := Floor(w, d);
    FloorBounds(w, d);
    var h, b := (q + x) / 2, (q + x) % 2;
    Distribute(q, x, d);
    Distribute(2 * h, b, d);
    DoubleLast(h, d);
    assert q + x == 2 * h + b;
    assert b * d == if b == 0 then 0 else d;
    FloorUnique(w + d * x, h, 2 * d);
  }

  lemma FloorOfSum(a: nat, b: nat, d: nat)
    requires 0 < d
    ensures Floor(a, d) + Floor(b, d) <= Floor(a + b, d) <= Floor(a, d) + Floor(b, d) + 1
  {
    var q := Floor(a, d) + Floor(b, d);
    FloorBounds(a, d);
    FloorBounds(b, d);
    assert q * d == Floor(a, d) * d + Floor(b, d) * d;
    if a + b < q * d + d {
      FloorUnique(a + b, q, d);
    } else {
      assert (q + 1) * d == q * d + d;
      FloorUnique(a + b, q + 1, d);
    }
  }

  lemma FloorOfDoubled(a: nat, d: nat)
    requires 0 < d
    ensures Floor(a, d) == Floor(2 * a, 2 * d)
  {
    var q := Floor(a, d);
    FloorBounds(a, d);
    assert q * (2 * d) == 2 * (q * d);
    FloorUnique(2 * a, q, 2 * d);
  }
}
