/** Integer arithmetic the modules share. */
module Numbers {
  function Min(a: int, b: int): int { if a < b then a else b }

  function Max(a: int, b: int): int { if a < b then b else a }

  function Pow2(n: nat): (p: nat)
    ensures p > 0
  {
    if n == 0 then 1 else 2 * Pow2(n - 1)
  }

  lemma {:induction false} Pow2Grows(m: nat, n: nat)
    requires m <= n
    ensures Pow2(m) <= Pow2(n) && (m < n ==> Pow2(m) < Pow2(n))
  {
    if m < n {
      Pow2Grows(m, n - 1);
    }
  }

  // ----- Multiples of g -----

  lemma Monotone(a: int, b: int, g: nat)
    ensures a <= b ==> a * g <= b * g
  {
  }

  lemma Quotient(n: nat, g: nat, q: nat, r: nat)
    requires n == q * g + r && r < g
    ensures n / g == q && n % g == r
  {
    Monotone(n / g + 1, q, g);
    Monotone(q + 1, n / g, g);
  }

  /** Whole cells before it move a position to a later cell, at the same place there. */
  lemma CellsShift(k: nat, n: nat, g: nat)
    requires 0 < g && n % g == 0
    ensures (n + k) / g == n / g + k / g && (n + k) % g == k % g
  {
    Quotient(n + k, g, n / g + k / g, k % g);
  }

  lemma RestOfWhole(m: nat, n: nat, g: nat)
    requires 0 < g && n <= m && m % g == 0 && n % g == 0
    ensures (m - n) % g == 0
  {
    CellsShift(m - n, n, g);
  }

  lemma EarlierCell(i: nat, k: nat, n: nat, g: nat)
    requires 0 < g && n % g == 0 && i < n
    ensures i / g < (n + k) / g
  {
    Monotone(n / g, i / g, g);
    CellsShift(k, n, g);
  }
}
