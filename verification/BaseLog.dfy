/**
 The table-driven base-2 logarithm: 32-bit integers to 16.16 fixed point.
 */
module BaseLog {
  import opened Arith

  const WORD := 0x1_0000_0000

  // A value with its top bit set
  const TOP := 0x8000_0000

  const BYTE3 := 0x100_0000

  // iv1: log2(1 + i/128) in 16.16
  function Logs(i: nat): int
    requires i <= 128
  {
    match i
    case 0 => 0 case 1 => 736 case 2 => 1466 case 3 => 2190
    case 4 => 2909 case 5 => 3623 case 6 => 4331 case 7 => 5034
    case 8 => 5732 case 9 => 6425 case 10 => 7112 case 11 => 7795
    case 12 => 8473 case 13 => 9146 case 14 => 9814 case 15 => 10477
    case 16 => 11136 case 17 => 11791 case 18 => 12440 case 19 => 13086
    case 20 => 13727 case 21 => 14363 case 22 => 14996 case 23 => 15624
    case 24 => 16248 case 25 => 16868 case 26 => 17484 case 27 => 18096
    case 28 => 18704 case 29 => 19308 case 30 => 19909 case 31 => 20505
    case 32 => 21098 case 33 => 21687 case 34 => 22272 case 35 => 22854
    case 36 => 23433 case 37 => 24007 case 38 => 24579 case 39 => 25146
    case 40 => 25711 case 41 => 26272 case 42 => 26830 case 43 => 27384
    case 44 => 27936 case 45 => 28484 case 46 => 29029 case 47 => 29571
    case 48 => 30109 case 49 => 30645 case 50 => 31178 case 51 => 31707
    case 52 => 32234 case 53 => 32758 case 54 => 33279 case 55 => 33797
    case 56 => 34312 case 57 => 34825 case 58 => 35334 case 59 => 35841
    case 60 => 36346 case 61 => 36847 case 62 => 37346 case 63 => 37842
    case 64 => 38336 case 65 => 38827 case 66 => 39316 case 67 => 39802
    case 68 => 40286 case 69 => 40767 case 70 => 41246 case 71 => 41722
    case 72 => 42196 case 73 => 42667 case 74 => 43137 case 75 => 43603
    case 76 => 44068 case 77 => 44530 case 78 => 44990 case 79 => 45448
    case 80 => 45904 case 81 => 46357 case 82 => 46809 case 83 => 47258
    case 84 => 47705 case 85 => 48150 case 86 => 48593 case 87 => 49034
    case 88 => 49472 case 89 => 49909 case 90 => 50344 case 91 => 50776
    case 92 => 51207 case 93 => 51636 case 94 => 52063 case 95 => 52488
    case 96 => 52911 case 97 => 53332 case 98 => 53751 case 99 => 54169
    case 100 => 54584 case 101 => 54998 case 102 => 55410 case 103 => 55820
    case 104 => 56229 case 105 => 56635 case 106 => 57040 case 107 => 57443
    case 108 => 57845 case 109 => 58245 case 110 => 58643 case 111 => 59039
    case 112 => 59434 case 113 => 59827 case 114 => 60219 case 115 => 60609
    case 116 => 60997 case 117 => 61384 case 118 => 61769 case 119 => 62152
    case 120 => 62534 case 121 => 62915 case 122 => 63294 case 123 => 63671
    case 124 => 64047 case 125 => 64421 case 126 => 64794 case 127 => 65166
    case _ => 65536
  }

  // iv: leading zeros of a byte
  function ByteZeros(b: nat): (z: nat)
    requires b < 256
    ensures z <= 8
  {
    if b >= 128 then 0 else if b >= 64 then 1 else if b >= 32 then 2 else if b >= 16 then 3
    else if b >= 8 then 4 else if b >= 4 then 5 else if b >= 2 then 6 else if b >= 1 then 7 else 8
  }

  function Pow2(n: nat): (r: nat)
    ensures r > 0
  {
    if n == 0 then 1 else 2 * Pow2(n - 1)
  }

  // ---------------------------------------------------------------- the source's computation

  // One round of the unrolled loop: the leading zeros of the high byte are shifted out
  function Shift(v: nat): (s: nat)
    requires v < WORD
    ensures s <= 8
  {
    ByteZeros(v / BYTE3)
  }

  function Round(v: nat): (r: nat)
    requires v < WORD
    ensures r < WORD && (v >= BYTE3 ==> r >= TOP) && (v < BYTE3 ==> r == 256 * v)
  {
    Shifted(v);
    v * Pow2(Shift(v))
  }

  // num_left_shifts
  function Shifts(u: nat): nat
    requires u < WORD
  {
    Shift(u) + Shift(Round(u)) + Shift(Round(Round(u))) + Shift(Round(Round(Round(u))))
  }

  function Normal(u: nat): (x: nat)
    requires u < WORD
    ensures x < WORD
  {
    Round(Round(Round(Round(u))))
  }

  // The table at the high byte of x, interpolated by the rest
  function Interpolated(x: nat): int
    requires TOP <= x < WORD
  {
    var high := x / BYTE3;
    HighByte(x);
    var l1 := Logs((high + 129) % 256 - 1);
    var l2 := Logs((high + 130) % 256 - 1);
    var l3 := Logs(high - 127 - 1);
    l1 + (x % BYTE3) * (l2 - l3) / BYTE3
  }

  // base2_logarithm
  function Log2(u: nat): int
    requires 0 < u < WORD
  {
    NormalTop(u);
    (31 - Shifts(u)) * 0x1_0000 + Interpolated(Normal(u))
  }

  /** All table indices are in range: l1 and l3 are the entry of the high byte, l2 the next. */
  lemma HighByte(x: nat)
    requires TOP <= x < WORD
    ensures var high := x / BYTE3;
      128 <= high < 256 && (high + 129) % 256 - 1 == high - 128 && (high + 130) % 256 - 1 == high - 127
  {
  }

  // ---------------------------------------------------------------- normalization

  lemma Shifted(v: nat)
    requires v < WORD
    ensures var r := v * Pow2(Shift(v)); r < WORD && (v >= BYTE3 ==> r >= TOP) && (v < BYTE3 ==> r == 256 * v)
  {
    Powers();
    var b := v / BYTE3;
    assert BYTE3 * b <= v < BYTE3 * (b + 1);
  }

  lemma Powers()
    ensures Pow2(0) == 1 && Pow2(1) == 2 && Pow2(2) == 4 && Pow2(3) == 8 && Pow2(4) == 16
    ensures Pow2(5) == 32 && Pow2(6) == 64 && Pow2(7) == 128 && Pow2(8) == 256
  {
    assert Pow2(4) == 16;
    assert Pow2(6) == 64;
  }

  lemma RoundTop(v: nat)
    requires TOP <= v < WORD
    ensures Shift(v) == 0 && Round(v) == v
  {
  }

  lemma NormalTop(u: nat)
    requires 0 < u < WORD
    ensures Normal(u) >= TOP
  {
    var a := Round(u);
    var b := Round(a);
    var c := Round(b);
    if u >= BYTE3 { RoundTop(a); RoundTop(b); RoundTop(c); }
    else if a >= BYTE3 { RoundTop(b); RoundTop(c); }
    else if b >= BYTE3 { RoundTop(c); }
  }

  // Number of leading zeros of a 32-bit value
  function LeadingZeros(u: nat): nat
    requires 0 < u < WORD
    decreases WORD - u
  {
    if u >= TOP then 0 else 1 + LeadingZeros(2 * u)
  }

  lemma {:induction false} ZerosUnique(u: nat, n: nat)
    requires 0 < u < WORD && TOP <= u * Pow2(n) < WORD
    ensures n == LeadingZeros(u)
    decreases n
  {
    if n > 0 {
      assert u * Pow2(n) == (2 * u) * Pow2(n - 1);
      Product(2 * u, Pow2(n - 1));
      ZerosUnique(2 * u, n - 1);
    }
  }

  lemma Product(a: nat, b: nat)
    requires b > 0
    ensures a <= a * b
  {
    assert a * b == a + a * (b - 1);
  }

  lemma {:induction false} PowAdd(a: nat, b: nat)
    ensures Pow2(a + b) == Pow2(a) * Pow2(b)
  {
    if a > 0 { PowAdd(a - 1, b); }
  }

  lemma {:induction false} PowMono(a: nat, b: nat)
    requires a <= b
    ensures Pow2(a) <= Pow2(b)
  {
    PowAdd(a, b - a);
    Product(Pow2(a), Pow2(b - a));
  }

  lemma Chained(u: nat, a: nat, v: nat, b: nat)
    requires v == u * Pow2(a)
    ensures v * Pow2(b) == u * Pow2(a + b)
  {
    PowAdd(a, b);
    assert (u * Pow2(a)) * Pow2(b) == u * (Pow2(a) * Pow2(b));
  }

  /** The four rounds shift by exactly the number of leading zeros. */
  lemma ShiftsAreZeros(u: nat)
    requires 0 < u < WORD
    ensures Shifts(u) == LeadingZeros(u) <= 31
    ensures Normal(u) == u * Pow2(LeadingZeros(u)) && TOP <= Normal(u) < WORD
  {
    NormalTop(u);
    var a := Round(u);
    var b := Round(a);
    var c := Round(b);
    hide Pow2, Round, Shift, LeadingZeros;
    RoundIs(u);
    RoundIs(a);
    RoundIs(b);
    RoundIs(c);
    Chained(u, Shift(u), a, Shift(a));
    Chained(u, Shift(u) + Shift(a), b, Shift(b));
    Chained(u, Shift(u) + Shift(a) + Shift(b), c, Shift(c));
    ZerosUnique(u, Shifts(u));
    AtMost31(u, Shifts(u));
  }

  lemma RoundIs(v: nat)
    requires v < WORD
    ensures Round(v) == v * Pow2(Shift(v))
  {
  }

  lemma AtMost31(u: nat, n: nat)
    requires u > 0 && u * Pow2(n) < WORD
    ensures n <= 31
  {
    Product(Pow2(n), u);
    if n > 31 {
      PowMono(32, n);
      Pow32();
    }
  }

  lemma Pow31()
    ensures Pow2(31) == TOP
  {
    Pow32();
  }

  lemma Pow32()
    ensures Pow2(32) == WORD
  {
    Powers();
    PowAdd(8, 8);
    PowAdd(16, 16);
  }

  // ---------------------------------------------------------------- the table

  /** A step of the table is as high as the logarithm's: 65536 * log2((129 + i) / (128 + i)) is
      189097 / (257 + 2 * i) up to less than one, as 2 * 65536 / ln 2 is 189096.92. */
  predicate StepIsLog(i: nat)
    requires i < 128
  {
    -(257 + 2 * i) < (Logs(i + 1) - Logs(i)) * (257 + 2 * i) - 189097 < 257 + 2 * i
  }

  // The next step is not higher
  predicate StepFalls(i: nat)
    requires i < 127
  {
    Logs(i + 2) - Logs(i + 1) <= Logs(i + 1) - Logs(i)
  }

  lemma Steps0(i: nat)
    requires 0 <= i < 16
    ensures StepIsLog(i) && (i < 127 ==> StepFalls(i))
  {
  }

  lemma Steps16(i: nat)
    requires 16 <= i < 32
    ensures StepIsLog(i) && (i < 127 ==> StepFalls(i))
  {
  }

  lemma Steps32(i: nat)
    requires 32 <= i < 48
    ensures StepIsLog(i) && (i < 127 ==> StepFalls(i))
  {
  }

  lemma Steps48(i: nat)
    requires 48 <= i < 64
    ensures StepIsLog(i) && (i < 127 ==> StepFalls(i))
  {
  }

  lemma Steps64(i: nat)
    requires 64 <= i < 80
    ensures StepIsLog(i) && (i < 127 ==> StepFalls(i))
  {
  }

  lemma Steps80(i: nat)
    requires 80 <= i < 96
    ensures StepIsLog(i) && (i < 127 ==> StepFalls(i))
  {
  }

  lemma Steps96(i: nat)
    requires 96 <= i < 112
    ensures StepIsLog(i) && (i < 127 ==> StepFalls(i))
  {
  }

  lemma Steps112(i: nat)
    requires 112 <= i < 128
    ensures StepIsLog(i) && (i < 127 ==> StepFalls(i))
  {
  }

  /** Every step of the table has the height of the logarithm's, and the steps fall. */
  lemma Steps(i: nat)
    requires i < 128
    ensures StepIsLog(i) && (i < 127 ==> StepFalls(i)) && Logs(i) < Logs(i + 1)
  {
    hide Logs, StepFalls;
    if i < 16 { Steps0(i); } else if i < 32 { Steps16(i); } else if i < 48 { Steps32(i); } else if i < 64 { Steps48(i); }
    else if i < 80 { Steps64(i); } else if i < 96 { Steps80(i); } else if i < 112 { Steps96(i); } else { Steps112(i); }
    Positive(Logs(i + 1) - Logs(i), 257 + 2 * i);
  }

  lemma Positive(d: int, n: nat)
    requires d * n > 189097 - n && 257 <= n <= 511
    ensures d > 0
  {
  }

  lemma {:induction false} LogsRise(i: nat, j: nat)
    requires i <= j <= 128
    ensures Logs(i) <= Logs(j) && (i < j ==> Logs(i) < Logs(j))
    decreases j - i
  {
    hide Logs;
    if i < j {
      Steps(i);
      LogsRise(i + 1, j);
    }
  }

  lemma TableEnds()
    ensures Logs(0) == 0 && Logs(128) == 0x1_0000
  {
  }

  // ---------------------------------------------------------------- monotone

  // Interpolation stays between two entries of the table
  lemma Between(x: nat)
    requires TOP <= x < WORD
    ensures Interpolated(x) == Logs(x / BYTE3 - 128)
              + (x % BYTE3) * (Logs(x / BYTE3 - 127) - Logs(x / BYTE3 - 128)) / BYTE3
    ensures Logs(x / BYTE3 - 128) <= Interpolated(x) < Logs(x / BYTE3 - 127)
  {
    hide Logs;
    HighByte(x);
    var h := x / BYTE3 - 128;
    LogsRise(h, h + 1);
    Fraction(x % BYTE3, Logs(h + 1) - Logs(h));
  }

  lemma Fraction(f: nat, d: nat)
    requires f < BYTE3 && d > 0
    ensures 0 <= f * d / BYTE3 < d
  {
    MulLe(f, BYTE3 - 1, d);
  }

  lemma InterpolatedRises(x: nat, y: nat)
    requires TOP <= x <= y < WORD
    ensures 0 <= Interpolated(x) <= Interpolated(y) < 0x1_0000
  {
    hide Logs, Interpolated;
    Between(x);
    Between(y);
    TableEnds();
    var h, k := x / BYTE3 - 128, y / BYTE3 - 128;
    HighByte(x);
    HighByte(y);
    Ordered(x, y);
    LogsRise(0, h);
    LogsRise(h, h + 1);
    LogsRise(k + 1, 128);
    if h < k {
      LogsRise(h + 1, k);
    } else {
      FractionRises(x % BYTE3, y % BYTE3, Logs(h + 1) - Logs(h));
    }
  }

  lemma Ordered(x: nat, y: nat)
    requires x <= y
    ensures x / BYTE3 <= y / BYTE3 && (x / BYTE3 == y / BYTE3 ==> x % BYTE3 <= y % BYTE3)
  {
  }

  lemma FractionRises(f: nat, g: nat, d: nat)
    requires f <= g
    ensures f * d / BYTE3 <= g * d / BYTE3
  {
    MulLe(f, g, d);
    Ordered(f * d, g * d);
  }

  lemma LogIs(u: nat)
    requires 0 < u < WORD
    ensures LeadingZeros(u) <= 31 && TOP <= u * Pow2(LeadingZeros(u)) < WORD
    ensures Log2(u) == (31 - LeadingZeros(u)) * 0x1_0000 + Interpolated(u * Pow2(LeadingZeros(u)))
  {
    ShiftsAreZeros(u);
  }

  /** The logarithm is monotone over the whole domain and lies in 0 to 32. */
  lemma Monotone(u: nat, w: nat)
    requires 0 < u <= w < WORD
    ensures 0 <= Log2(u) <= Log2(w) < 32 * 0x1_0000
  {
    hide Log2, Interpolated, Pow2, LeadingZeros;
    LogIs(u);
    LogIs(w);
    var m, n := LeadingZeros(u), LeadingZeros(w);
    var x, y := u * Pow2(m), w * Pow2(n);
    InterpolatedRises(x, x);
    InterpolatedRises(y, y);
    if m == n {
      MulLe(u, w, Pow2(m));
      InterpolatedRises(x, y);
    } else if m < n {
      NotFewer(u, w, m, n);
    }
  }

  // A larger value has no more leading zeros
  lemma NotFewer(u: nat, w: nat, m: nat, n: nat)
    requires u <= w && m < n
    ensures 2 * (u * Pow2(m)) <= w * Pow2(n)
  {
    PowMono(m + 1, n);
    var a, b := Pow2(m), Pow2(n);
    assert 2 * a <= b;
    hide Pow2;
    Doubled(u, w, a, b);
  }

  lemma Doubled(u: nat, w: nat, a: nat, b: nat)
    requires u <= w && 2 * a <= b
    ensures 2 * (u * a) <= w * b
  {
    Products(u, w, 2 * a, b);
  }

  lemma Products(u: nat, w: nat, a: nat, b: nat)
    requires u <= w && a <= b
    ensures u * a <= w * b
  {
    MulLe(u, w, a);
    MulLe(a, b, w);
  }

  /** Doubling the input adds exactly one. */
  lemma Doubling(u: nat)
    requires 0 < u && 2 * u < WORD
    ensures Log2(2 * u) == Log2(u) + 0x1_0000
  {
    hide Log2, Interpolated;
    LogIs(u);
    LogIs(2 * u);
    var n := LeadingZeros(2 * u);
    assert LeadingZeros(u) == n + 1;
    assert u * Pow2(n + 1) == (2 * u) * Pow2(n);
  }

  /** On powers of two it is exact. */
  lemma {:induction false} PowersExact(k: nat)
    requires k <= 31
    ensures 0 < Pow2(k) < WORD && Log2(Pow2(k)) == k * 0x1_0000
  {
    hide Log2;
    PowMono(k, 31);
    Pow31();
    if k == 0 {
      LogOfOne();
    } else {
      PowersExact(k - 1);
      Doubling(Pow2(k - 1));
    }
  }

  lemma LogOfOne()
    ensures Log2(1) == 0
  {
    LogIs(1);
    Pow31();
    ZerosUnique(1, 31);
    HighByte(TOP);
    TableEnds();
  }
}
