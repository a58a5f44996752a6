/**
  Linear congruential generators modulo a power of two, as used to fill the cipher tables:
  x' = mul * x + add with mul = 1 (mod 4) and add odd runs through every residue.
 */
module Generators {

  /** 2^b divides n. */
  predicate TwoDivides(b: nat, n: nat)
  {
    b == 0 || (n % 2 == 0 && TwoDivides(b - 1, n / 2))
  }

  lemma TwoDivides2(n: nat)
    ensures TwoDivides(1, n) <==> n % 2 == 0
  {
  }

  lemma TwoDivides4(n: nat)
    ensures TwoDivides(2, n) <==> n % 4 == 0
  {
    TwoDivides2(n / 2);
    assert n % 4 == 0 <==> n % 2 == 0 && n / 2 % 2 == 0;
  }

  lemma TwoDivides8(n: nat)
    ensures TwoDivides(3, n) <==> n % 8 == 0
  {
    TwoDivides4(n / 2);
    assert n % 8 == 0 <==> n % 2 == 0 && n / 2 % 4 == 0;
  }

  lemma TwoDivides16(n: nat)
    ensures TwoDivides(4, n) <==> n % 16 == 0
  {
    TwoDivides8(n / 2);
    assert n % 16 == 0 <==> n % 2 == 0 && n / 2 % 8 == 0;
  }

  lemma TwoDivides32(n: nat)
    ensures TwoDivides(5, n) <==> n % 32 == 0
  {
    TwoDivides16(n / 2);
    assert n % 32 == 0 <==> n % 2 == 0 && n / 2 % 16 == 0;
  }

  lemma TwoDivides64(n: nat)
    ensures TwoDivides(6, n) <==> n % 64 == 0
  {
    TwoDivides32(n / 2);
    assert n % 64 == 0 <==> n % 2 == 0 && n / 2 % 32 == 0;
  }

  lemma TwoDivides128(n: nat)
    ensures TwoDivides(7, n) <==> n % 128 == 0
  {
    TwoDivides64(n / 2);
    assert n % 128 == 0 <==> n % 2 == 0 && n / 2 % 64 == 0;
  }

  lemma TwoDivides256(n: nat)
    ensures TwoDivides(8, n) <==> n % 256 == 0
  {
    TwoDivides128(n / 2);
    assert n % 256 == 0 <==> n % 2 == 0 && n / 2 % 128 == 0;
  }

  lemma OddTimes(a: nat, q: nat)
    requires q % 2 == 1
    ensures (a * q) % 2 == a % 2
    ensures a % 2 == 0 ==> (a * q) / 2 == (a / 2) * q
  {
    var k := q / 2;
    assert a * q == 2 * (a * k) + a;
    if a % 2 == 0 {
      var h := a / 2;
      assert a * q == 2 * (h * q);
    }
  }

  /** Odd factors do not help a power of two to divide. */
  lemma {:induction false} OddFactor(b: nat, a: nat, q: nat)
    requires q % 2 == 1
    ensures TwoDivides(b, a * q) <==> TwoDivides(b, a)
    decreases b
  {
    if b > 0 {
      OddTimes(a, q);
      if a % 2 == 0 {
        OddFactor(b - 1, a / 2, q);
      }
    }
  }

  function Pow(m: nat, n: nat): nat
  {
    if n == 0 then 1 else m * Pow(m, n - 1)
  }

  /** 1 + m + ... + m^(n-1). */
  function Geo(m: nat, n: nat): nat
  {
    if n == 0 then 0 else 1 + m * Geo(m, n - 1)
  }

  lemma OneTimesOne(a: nat, b: nat)
    requires a % 4 == b % 4 == 1
    ensures (a * b) % 4 == 1
  {
    var j, k := a / 4, b / 4;
    assert a == 4 * j + 1 && b == 4 * k + 1;
    assert a * b == 4 * (4 * (j * k) + j + k) + 1;
  }

  lemma {:induction false} PowIsOne(m: nat, n: nat)
    requires m % 4 == 1
    ensures Pow(m, n) % 4 == 1
  {
    if n > 0 {
      PowIsOne(m, n - 1);
      OneTimesOne(m, Pow(m, n - 1));
    }
  }

  lemma FlipParity(a: nat, q: nat)
    requires q % 2 == 1
    ensures (1 + q * a) % 2 == (1 + a) % 2
  {
    OddTimes(a, q);
  }

  lemma OddMultiplier(m: nat)
    requires m % 4 == 1
    ensures m % 2 == 1
  {
  }

  lemma NextParity(x: nat, g: nat, n: nat)
    requires n > 0 && (1 + x) % 2 == (1 + g) % 2 && g % 2 == (n - 1) % 2
    ensures (1 + x) % 2 == n % 2
  {
  }

  lemma {:induction false} GeoParity(m: nat, n: nat)
    requires m % 4 == 1
    ensures Geo(m, n) % 2 == n % 2
  {
    hide Pow;
    if n > 0 {
      GeoParity(m, n - 1);
      GeoStep(m, n);
      OddMultiplier(m);
      FlipParity(Geo(m, n - 1), m);
      NextParity(m * Geo(m, n - 1), Geo(m, n - 1), n);
    }
  }

  lemma {:induction false} GeoSplit(m: nat, i: nat, j: nat)
    ensures Geo(m, i + j) == Geo(m, i) + Pow(m, i) * Geo(m, j)
  {
    if i > 0 {
      GeoSplit(m, i - 1, j);
      assert Geo(m, i + j) == 1 + m * Geo(m, i - 1 + j);
      hide Geo, Pow;
      Distribute(m, Geo(m, i - 1), Pow(m, i - 1), Geo(m, j));
      GeoStep(m, i);
    }
  }

  lemma Distribute(m: nat, g: nat, p: nat, h: nat)
    ensures 1 + m * (g + p * h) == 1 + m * g + m * p * h
  {
  }

  lemma GeoStep(m: nat, i: nat)
    requires i > 0
    ensures Geo(m, i) == 1 + m * Geo(m, i - 1) && Pow(m, i) == m * Pow(m, i - 1)
  {
  }

  lemma Doubled(g: nat, p: nat, q: nat)
    requires 1 + p == 2 * q
    ensures g + p * g == 2 * (g * q)
  {
  }

  /** The powers of two in 1 + m + ... + m^(n-1) are exactly those in n. */
  lemma {:induction false} GeoDivides(m: nat, n: nat, b: nat)
    requires m % 4 == 1
    ensures TwoDivides(b, Geo(m, n)) <==> TwoDivides(b, n)
    decreases n
  {
    hide Geo, Pow;
    GeoParity(m, n);
    if n == 0 {
      GeoOfNothing(m);
    } else if n % 2 == 0 && b > 0 {
      var k := n / 2;
      GeoSplit(m, k, k);
      PowIsOne(m, k);
      OddHalf(Pow(m, k));
      var q := (1 + Pow(m, k)) / 2;
      Doubled(Geo(m, k), Pow(m, k), q);
      HalfOf(Geo(m, n), Geo(m, k) * q);
      OddFactor(b - 1, Geo(m, k), q);
      GeoDivides(m, k, b - 1);
    }
  }

  lemma GeoOfNothing(m: nat)
    ensures Geo(m, 0) == 0
  {
  }

  lemma OddHalf(p: nat)
    requires p % 4 == 1
    ensures 1 + p == 2 * ((1 + p) / 2) && (1 + p) / 2 % 2 == 1
  {
    var k := p / 4;
    assert p == 4 * k + 1;
    assert (1 + p) / 2 == 2 * k + 1;
  }

  lemma HalfOf(x: nat, y: nat)
    requires x == 2 * y
    ensures x / 2 == y
  {
  }

  /** The generator's n-th value before any reduction. */
  function Iterate(mul: nat, add: nat, x: nat, n: nat): nat
  {
    if n == 0 then x else mul * Iterate(mul, add, x, n - 1) + add
  }

  lemma OneMoreStep(mul: nat, add: nat, x: nat, g: nat, u: nat)
    requires mul > 0 && u == (mul - 1) * x + add
    ensures mul * (x + g * u) + add == x + (1 + mul * g) * u
  {
    calc {
      mul * (x + g * u) + add;
      mul * x + mul * (g * u) + add;
      x + u + mul * (g * u);
      { assert mul * (g * u) == (mul * g) * u; }
      x + (1 + mul * g) * u;
    }
  }

  /** The distance of the first step from x. */
  function Stride(mul: nat, add: nat, x: nat): nat
    requires mul > 0
  {
    (mul - 1) * x + add
  }

  lemma {:induction false} IterateDistance(mul: nat, add: nat, x: nat, n: nat)
    requires mul > 0
    ensures Iterate(mul, add, x, n) == x + Geo(mul, n) * Stride(mul, add, x)
  {
    if n > 0 {
      IterateDistance(mul, add, x, n - 1);
      OneMoreStep(mul, add, x, Geo(mul, n - 1), Stride(mul, add, x));
    }
  }

  lemma {:induction false} IterateCompose(mul: nat, add: nat, x: nat, i: nat, n: nat)
    ensures Iterate(mul, add, x, i + n) == Iterate(mul, add, Iterate(mul, add, x, i), n)
  {
    if n > 0 {
      IterateCompose(mul, add, x, i, n - 1);
    }
  }

  lemma DistanceIsOdd(mul: nat, add: nat, x: nat)
    requires mul % 4 == 1 && add % 2 == 1
    ensures Stride(mul, add, x) % 2 == 1
  {
    var j := mul / 4;
    assert (mul - 1) * x == 2 * (2 * (j * x));
  }

  /** Full period, any power of two: two values agree modulo 2^b only a multiple of 2^b apart. */
  lemma FullPeriod(mul: nat, add: nat, x: nat, i: nat, n: nat, b: nat)
    requires mul % 4 == 1 && add % 2 == 1
    ensures Iterate(mul, add, x, i + n) >= Iterate(mul, add, x, i)
    ensures TwoDivides(b, Iterate(mul, add, x, i + n) - Iterate(mul, add, x, i)) <==> TwoDivides(b, n)
  {
    hide Geo, Iterate, TwoDivides, Stride;
    var y := Iterate(mul, add, x, i);
    IterateCompose(mul, add, x, i, n);
    IterateDistance(mul, add, y, n);
    DistanceIsOdd(mul, add, y);
    OddFactor(b, Geo(mul, n), Stride(mul, add, y));
    GeoDivides(mul, n, b);
  }

  lemma SameResidue16(a: nat, b: nat)
    requires a <= b && a % 16 == b % 16
    ensures (b - a) % 16 == 0
  {
  }

  lemma SameResidue256(a: nat, b: nat)
    requires a <= b && a % 256 == b % 256
    ensures (b - a) % 256 == 0
  {
    var p, q, r := a / 256, b / 256, a % 256;
    assert a == 256 * p + r && b == 256 * q + r;
    assert b - a == 256 * (q - p);
  }

  /** The reduced generator does not repeat within 16 steps (modulo 16), ... */
  lemma DistinctModulo16(mul: nat, add: nat, x: nat, i: nat, j: nat)
    requires mul % 4 == 1 && add % 2 == 1 && i < j < i + 16
    ensures Iterate(mul, add, x, i) % 16 != Iterate(mul, add, x, j) % 16
  {
    FullPeriod(mul, add, x, i, j - i, 4);
    var a, b := Iterate(mul, add, x, i), Iterate(mul, add, x, j);
    assert i + (j - i) == j;
    TwoDivides16(b - a);
    TwoDivides16(j - i);
    hide Iterate, TwoDivides;
    if a % 16 == b % 16 {
      SameResidue16(a, b);
    }
  }

  /** ... nor within 256 steps (modulo 256). */
  lemma DistinctModulo256(mul: nat, add: nat, x: nat, i: nat, j: nat)
    requires mul % 4 == 1 && add % 2 == 1 && i < j < i + 256
    ensures Iterate(mul, add, x, i) % 256 != Iterate(mul, add, x, j) % 256
  {
    FullPeriod(mul, add, x, i, j - i, 8);
    var a, b := Iterate(mul, add, x, i), Iterate(mul, add, x, j);
    assert i + (j - i) == j;
    TwoDivides256(b - a);
    TwoDivides256(j - i);
    hide Iterate, TwoDivides;
    if a % 256 == b % 256 {
      SameResidue256(a, b);
    }
  }

  /** Reducing before a step changes nothing after the reduction that follows it. */
  lemma ReduceStep16(mul: nat, add: nat, x: nat)
    requires mul == 5 || mul == 13
    ensures (mul * (x % 16) + add) % 16 == (mul * x + add) % 16
  {
    if mul == 5 {
      ReduceStepFive(add, x);
    } else {
      ReduceStepThirteen(add, x);
    }
  }

  lemma ReduceStepFive(add: nat, x: nat)
    ensures (5 * (x % 16) + add) % 16 == (5 * x + add) % 16
  {
    var q, r := x / 16, x % 16;
    assert 5 * x + add == 16 * (5 * q) + (5 * r + add);
  }

  lemma ReduceStepThirteen(add: nat, x: nat)
    ensures (13 * (x % 16) + add) % 16 == (13 * x + add) % 16
  {
    var q, r := x / 16, x % 16;
    assert 13 * x + add == 16 * (13 * q) + (13 * r + add);
  }

  lemma ReduceStep256(x: nat)
    ensures (13 * (x % 256) + 11) % 256 == (13 * x + 11) % 256
  {
    var q, z := x / 256, 13 * (x % 256) + 11;
    Residue256(13 * x + 11, 13 * q + z / 256, z % 256);
  }

  lemma Residue256(y: nat, k: nat, s: nat)
    requires y == 256 * k + s && s < 256
    ensures y % 256 == s
  {
  }
}
