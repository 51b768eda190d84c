/** The bit arithmetic of table sizes that are powers of two (src/chashmap/raw/mod.rs, src/chashmap/map.rs). */
module Bits {

  function Pow2(k: nat): (n: nat)
    ensures n > 0
  {
    if k == 0 then 1 else 2 * Pow2(k - 1)
  }

  /** `a & b`, for unsigned words of any width. */
  function And(a: nat, b: nat): nat
    decreases a
  {
    if a == 0 || b == 0 then 0 else (a % 2) * (b % 2) + 2 * And(a / 2, b / 2)
  }

  /** The bin of `hash` in a table of 2^k bins. */
  function BinIndex(hash: nat, k: nat): nat {
    And(hash, Pow2(k) - 1)
  }

  // ---- quotients and remainders ----

  lemma AtLeastOnce(n: nat, d: nat)
    requires d > 0
    ensures n * d >= n
  {
  }

  lemma NoMultipleBetween(n: nat, d: int)
    requires -(n as int) < n * d < n
    ensures d == 0
  {
    if d > 0 {
      AtLeastOnce(n, d);
    }
  }

  lemma RemainderIs(h: nat, n: nat, q: nat, r: nat)
    requires r < n && h == n * q + r
    ensures h % n == r && h / n == q
  {
    var q', r' := h / n, h % n;
    assert n * (q - q') == n * q - n * q';
    NoMultipleBetween(n, q - q');
  }

  lemma Doubled(n: nat, q: nat, a: nat, r: nat)
    ensures n * (2 * q + a) + r == (2 * n) * q + (n * a + r)
    ensures 2 * (n * q + r) + a == (2 * n) * q + (2 * r + a)
  {
  }

  lemma HalvedDivision(h: nat, n: nat)
    requires n > 0
    ensures h % (2 * n) == h % 2 + 2 * (h / 2 % n) && h / 2 / n == h / (2 * n)
  {
    var q, r := h / 2 / n, h / 2 % n;
    Doubled(n, q, h % 2, r);
    assert h == 2 * (h / 2) + h % 2;
    assert h / 2 == n * q + r;
    RemainderIs(h, 2 * n, q, 2 * r + h % 2);
  }

  lemma SplitRemainder(h: nat, n: nat)
    requires n > 0
    ensures h % (2 * n) == h % n + n * (h / n % 2)
  {
    SplitQuotient(h, n, h / n / 2, h / n % 2, h % n);
  }

  lemma SplitQuotient(h: nat, n: nat, q: nat, a: nat, r: nat)
    requires r < n && a < 2 && h == n * (2 * q + a) + r
    ensures h % (2 * n) == r + n * a
  {
    Doubled(n, q, a, r);
    RemainderIs(h, 2 * n, q, n * a + r);
  }

  // ---- masks ----

  /** Masking with the table size less one is the remainder. */
  lemma {:induction false} MaskIsRemainder(h: nat, k: nat)
    ensures BinIndex(h, k) == h % Pow2(k)
  {
    if k > 0 && h > 0 {
      var n := Pow2(k - 1);
      MaskIsRemainder(h / 2, k - 1);
      HalvedDivision(h, n);
      MaskStep(h, n);
      hide And;
    } else {
      assert And(h, 0) == 0 && h % 1 == 0;
    }
  }

  lemma MaskStep(h: nat, n: nat)
    requires n > 0 && h > 0
    ensures And(h, 2 * n - 1) == h % 2 + 2 * And(h / 2, n - 1)
    ensures And(h, 2 * n) == 2 * And(h / 2, n)
  {
    assert (2 * n - 1) / 2 == n - 1 && (2 * n - 1) % 2 == 1;
  }

  /** One bit of `h` is all that a mask of one bit leaves. */
  lemma {:induction false} BitOf(h: nat, k: nat)
    ensures And(h, Pow2(k)) == if h / Pow2(k) % 2 == 0 then 0 else Pow2(k)
  {
    if k == 0 {
      if h > 0 {
        assert And(h, 1) == h % 2 + 2 * And(h / 2, 0);
      }
    } else if h > 0 {
      var n := Pow2(k - 1);
      BitOf(h / 2, k - 1);
      HalvedDivision(h, n);
      MaskStep(h, n);
    }
  }

  /** In a table of twice the size a hash stays at its index, or goes up by the old size. */
  lemma SplitIndex(h: nat, k: nat)
    ensures BinIndex(h, k) < Pow2(k)
    ensures And(h, Pow2(k)) == 0 || And(h, Pow2(k)) == Pow2(k)
    ensures BinIndex(h, k + 1) == BinIndex(h, k) + And(h, Pow2(k))
  {
    MaskIsRemainder(h, k);
    MaskIsRemainder(h, k + 1);
    BitOf(h, k);
    SplitRemainder(h, Pow2(k));
    hide And;
  }
}
