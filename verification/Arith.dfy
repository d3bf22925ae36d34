/**
 Facts about products and remainders.
 */
module Arith {

  function Mod(x: nat, m: nat): (r: nat)
    requires m > 0
    ensures r < m
  {
    x % m
  }

  lemma MulLe(a: nat, b: nat, c: nat)
    ensures a <= b ==> a * c <= b * c
  {
    if a <= b { assert b * c == a * c + (b - a) * c; }
  }

  lemma NextMultiple(q: nat, m: nat)
    ensures (q + 1) * m == q * m + m
  {
  }

  lemma Euclid(d: nat, m: nat)
    requires m > 0
    ensures d == (d / m) * m + d % m && d % m < m
  {
  }

  // The quotient is the one number whose multiples enclose d
  lemma Squeeze(p: nat, q: nat, m: nat, d: nat)
    requires p * m <= d < p * m + m && q * m <= d < q * m + m
    ensures p == q
  {
    NextMultiple(p, m);
    NextMultiple(q, m);
    MulLe(p + 1, q, m);
    MulLe(q + 1, p, m);
  }

  lemma DivIs(d: nat, m: nat, q: nat)
    requires m > 0 && q * m <= d < q * m + m
    ensures d / m == q && d % m == d - q * m
  {
    Euclid(d, m);
    Squeeze(d / m, q, m, d);
  }

  lemma MultipleOf(k: nat, m: nat)
    requires m > 0
    ensures (k * m) % m == 0
  {
    DivIs(k * m, m, k);
  }

  lemma ModAdd(m: nat, i: nat)
    requires m > 0
    ensures Mod(i + m, m) == Mod(i, m) && (i < m ==> Mod(i, m) == i)
  {
    var q := i / m;
    Euclid(i, m);
    NextMultiple(q, m);
    DivIs(i + m, m, q + 1);
    if i < m { DivIs(i, m, 0); }
  }

  // Going on from x inside one round
  lemma ModStep(x: nat, m: nat, i: nat)
    requires m > 0 && Mod(x, m) + i <= m
    ensures Mod(x + i, m) == if Mod(x, m) + i == m then 0 else Mod(x, m) + i
  {
    var q := x / m;
    Euclid(x, m);
    NextMultiple(q, m);
    DivIs(x + i, m, if x % m + i == m then q + 1 else q);
  }

  // Two positions less than a round apart are different
  lemma ModDistinct(x: nat, y: nat, m: nat)
    requires m > 0 && x < y < x + m
    ensures Mod(x, m) != Mod(y, m)
  {
    hide Mod;
    var i, left := y - x, m - Mod(x, m);
    if i <= left {
      ModStep(x, m, i);
    } else {
      ModStep(x, m, left);
      ModStep(x + left, m, i - left);
    }
  }
}
