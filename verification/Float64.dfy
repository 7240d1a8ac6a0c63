/** Go's `float64` on the integers: conversion of an int64 keeps 53 significant bits and rounds to
    nearest, ties to even. All the values here are far below the largest finite float64. */
module Float64 {

  const TWO52: nat := 0x10_0000_0000_0000
  const TWO53: nat := 0x20_0000_0000_0000
  const TWO63: nat := 0x8000_0000_0000_0000

  /** The distance between neighbouring floats around x. */
  function Ulp(x: nat): (u: nat)
    ensures u >= 1
  {
    if x < TWO53 then 1 else 2 * Ulp(x / 2)
  }

  /** The multiple of u nearest to x, the even one on a tie. */
  function Nearest(x: nat, u: nat): nat
    requires u >= 1
  {
    var q, r := x / u, x % u;
    if 2 * r < u || (2 * r == u && q % 2 == 0) then q * u else (q + 1) * u
  }

  /** `float64(x)`. */
  function ToFloat(x: nat): nat {
    Nearest(x, Ulp(x))
  }

  predicate Representable(x: nat) {
    x % Ulp(x) == 0
  }

  /** `math.Pow(2, k)`, which is exact. */
  function Pow2(k: nat): (p: nat)
    ensures p >= 1
  {
    if k == 0 then 1 else 2 * Pow2(k - 1)
  }

  /** x has at most 53 bits in front of its ulp, and exactly 53 once it is large. */
  lemma {:induction false} UlpScale(x: nat)
    ensures x < TWO53 * Ulp(x)
    ensures x >= TWO53 ==> TWO52 * Ulp(x) <= x
  {
    if x >= TWO53 {
      UlpScale(x / 2);
    }
  }

  /** The ulp never shrinks, and when it grows it at least doubles. */
  lemma {:induction false} UlpGrows(x: nat, y: nat)
    requires x <= y
    ensures Ulp(x) == Ulp(y) || 2 * Ulp(x) <= Ulp(y)
  {
    if x >= TWO53 {
      UlpGrows(x / 2, y / 2);
    }
  }

  /** Floor division, spelled out. */
  lemma DivMod(x: nat, u: nat)
    requires u >= 1
    ensures x == (x / u) * u + x % u
    ensures 0 <= x % u < u
  {
  }

  lemma MulMono(a: nat, b: nat, u: nat)
    requires a <= b
    ensures a * u <= b * u
  {
  }

  lemma MultipleMod(q: nat, u: nat)
    requires u >= 1
    ensures (q * u) % u == 0 && (q * u) / u == q
  {
    DivMod(q * u, u);
    var q', r := (q * u) / u, (q * u) % u;
    assert r == (q - q') * u;
    if q' < q {
      MulMono(1, q - q', u);
    }
  }

  /** On one grid rounding is monotone. */
  lemma NearestMonotone(x: nat, y: nat, u: nat)
    requires u >= 1 && x <= y
    ensures Nearest(x, u) <= Nearest(y, u)
  {
    DivMod(x, u);
    DivMod(y, u);
    var qx, qy := x / u, y / u;
    if qx > qy {
      MulMono(qy + 1, qx, u);
      assert false;
    } else if qx < qy {
      MulMono(qx + 1, qy, u);
      MulMono(qy, qy + 1, u);
      MulMono(qx, qx + 1, u);
    }
  }

  /** A multiple of the grid on either side of x bounds its rounding. */
  lemma NearestBetween(x: nat, u: nat, lo: nat, hi: nat)
    requires u >= 1 && lo * u <= x <= hi * u
    ensures lo * u <= Nearest(x, u) <= hi * u
  {
    MultipleMod(lo, u);
    MultipleMod(hi, u);
    NearestMonotone(lo * u, x, u);
    NearestMonotone(x, hi * u, u);
  }

  /** Conversion to float64 is monotone. */
  lemma ToFloatMonotone(x: nat, y: nat)
    requires x <= y
    ensures ToFloat(x) <= ToFloat(y)
  {
    var ux, uy := Ulp(x), Ulp(y);
    UlpGrows(x, y);
    if ux == uy {
      NearestMonotone(x, y, ux);
    } else {
      UlpScale(x);
      UlpScale(y);
      NearestBetween(x, ux, 0, TWO53);
      DivMod(y, uy);
      assert y >= TWO53;
      NearestBetween(y, uy, TWO52, TWO53);
    }
  }

  /** Converting twice changes nothing more. */
  lemma ToFloatRepresentable(x: nat)
    ensures Representable(ToFloat(x))
  {
    var u := Ulp(x);
    UlpScale(x);
    var f := ToFloat(x);
    if x < TWO53 {
      assert f == x;
    } else {
      NearestBetween(x, u, TWO52, TWO53);
      var m := if f == (x / u) * u then x / u else x / u + 1;
      assert f == m * u;
      if f < TWO53 * u {
        SameUlp(x, f);
        MultipleMod(m, u);
      } else {
        assert f == 2 * (TWO52 * u);
        SameUlp(x, TWO52 * u);
        UlpDouble(TWO52 * u);
        assert f == TWO52 * (2 * u);
        MultipleMod(TWO52, 2 * u);
      }
    }
  }

  lemma UlpDouble(x: nat)
    ensures Ulp(2 * x) == if x < TWO52 then 1 else 2 * Ulp(x)
  {
  }

  /** The ulp is determined by the binade. */
  lemma SameUlp(x: nat, y: nat)
    requires x >= TWO53
    requires TWO52 * Ulp(x) <= y < TWO53 * Ulp(x)
    ensures Ulp(y) == Ulp(x)
  {
    UlpScale(x);
    UlpScale(y);
    if y <= x { UlpGrows(y, x); } else { UlpGrows(x, y); }
  }

  lemma RepresentableIsFixed(x: nat)
    requires Representable(x)
    ensures ToFloat(x) == x
  {
    DivMod(x, Ulp(x));
  }

  /** Scaling by a power of two is exact. */
  lemma {:induction false} ScaledRepresentable(f: nat, k: nat)
    requires Representable(f)
    ensures Representable(f * Pow2(k))
  {
    if k > 0 {
      ScaledRepresentable(f, k - 1);
      var g := f * Pow2(k - 1);
      assert f * Pow2(k) == 2 * g;
      UlpDouble(g);
      if g >= TWO52 {
        var u := Ulp(g);
        DivMod(g, u);
        assert 2 * g == (g / u) * (2 * u);
        MultipleMod(g / u, 2 * u);
      }
    }
  }

  /** The int64 values that round up to 2^63. */
  lemma RoundsTo63(x: nat)
    requires x < TWO63
    ensures ToFloat(x) == TWO63 <==> x >= TWO63 - 512
    ensures ToFloat(x) <= TWO63
  {
    var half: nat := 0x4000_0000_0000_0000;
    UlpAtHalf();
    if x >= half {
      assert half == TWO52 * 1024 && TWO63 == TWO53 * 1024;
      SameUlp(half, x);
      assert Ulp(x) == 1024;
    } else {
      ToFloatMonotone(x, half);
      RepresentableIsFixed(half);
    }
  }

  lemma UlpAtHalf()
    ensures Ulp(0x4000_0000_0000_0000) == 1024
  {
    UlpDouble(0x2000_0000_0000_0000);
    UlpDouble(0x1000_0000_0000_0000);
    UlpDouble(0x800_0000_0000_0000);
    UlpDouble(0x400_0000_0000_0000);
    UlpDouble(0x200_0000_0000_0000);
    UlpDouble(0x100_0000_0000_0000);
    UlpDouble(0x80_0000_0000_0000);
    UlpDouble(0x40_0000_0000_0000);
    UlpDouble(0x20_0000_0000_0000);
    UlpDouble(0x10_0000_0000_0000);
  }

  // ---------------------------------------------------------------------------------------------
  // What conversion means
  // ---------------------------------------------------------------------------------------------

  lemma {:induction false} UlpIsPower(x: nat) returns (k: nat)
    ensures Ulp(x) == Pow2(k)
  {
    if x < TWO53 {
      k := 0;
    } else {
      var j := UlpIsPower(x / 2);
      k := j + 1;
    }
  }

  /** x has the given significand and exponent. */
  predicate IsFloat(x: nat, significand: nat, exponent: nat) {
    significand < TWO53 && x == significand * Pow2(exponent)
  }

  /** The floats are the numbers of 53 significant bits. */
  lemma RepresentableIff(x: nat)
    ensures Representable(x) <==> exists m: nat, k: nat :: IsFloat(x, m, k)
  {
    if Representable(x) {
      var k := UlpIsPower(x);
      UlpScale(x);
      DivMod(x, Ulp(x));
      if x / Ulp(x) >= TWO53 { MulMono(TWO53, x / Ulp(x), Ulp(x)); }
      assert IsFloat(x, x / Ulp(x), k);
    }
    forall m: nat, k: nat | IsFloat(x, m, k) ensures Representable(x) {
      assert Representable(m);
      ScaledRepresentable(m, k);
    }
  }

  lemma {:induction false} UlpDivides(x: nat, y: nat) returns (j: nat)
    requires x <= y
    ensures Ulp(y) == j * Ulp(x)
  {
    if x >= TWO53 {
      j := UlpDivides(x / 2, y / 2);
      assert 2 * (j * Ulp(x / 2)) == j * (2 * Ulp(x / 2));
    } else {
      j := Ulp(y);
    }
  }

  function Distance(x: nat, y: nat): nat {
    if x <= y then y - x else x - y
  }

  /** No multiple of the grid is nearer, and if one is as near the quotient of the result is even. */
  lemma NearestOnGrid(x: nat, u: nat, q: nat)
    requires u >= 1
    ensures Distance(x, Nearest(x, u)) <= Distance(x, q * u)
    ensures Distance(x, Nearest(x, u)) == Distance(x, q * u) && q * u != Nearest(x, u) ==>
              (Nearest(x, u) / u) % 2 == 0
  {
    var n, r := x / u, x % u;
    DivMod(x, u);
    assert (n + 1) * u == n * u + u;
    MultipleMod(n, u);
    MultipleMod(n + 1, u);
    if q <= n {
      MulMono(q, n, u);
      if q < n {
        MulMono(q + 1, n, u);
        assert (q + 1) * u == q * u + u;
      }
    } else {
      MulMono(n + 1, q, u);
      if q > n + 1 {
        MulMono(n + 2, q, u);
        assert (n + 2) * u == n * u + u + u;
      }
    }
  }

  /** Conversion rounds to the nearest float: no float is nearer to x, and if another one is as near, the
      significand of the result is even. */
  lemma NearestFloat(x: nat, y: nat)
    requires Representable(y)
    ensures Distance(x, ToFloat(x)) <= Distance(x, y)
    ensures Distance(x, ToFloat(x)) == Distance(x, y) && y != ToFloat(x) ==> (ToFloat(x) / Ulp(x)) % 2 == 0
  {
    var u := Ulp(x);
    if x <= y {
      var q := MultipleOfUlp(x, y);
      NearestOnGrid(x, u, q);
    } else {
      UlpGrows(y, x);
      if Ulp(y) == u {
        MultipleOfItsUlp(y);
        NearestOnGrid(x, u, y / u);
      } else {
        BelowBinade(x, y);
        NearestOnGrid(x, u, TWO52);
      }
    }
  }

  lemma MultipleOfItsUlp(y: nat)
    requires Representable(y)
    ensures y == (y / Ulp(y)) * Ulp(y)
  {
    DivMod(y, Ulp(y));
  }

  lemma MultipleOfUlp(x: nat, y: nat) returns (q: nat)
    requires Representable(y) && x <= y
    ensures y == q * Ulp(x)
  {
    MultipleOfItsUlp(y);
    var j := UlpDivides(x, y);
    q := (y / Ulp(y)) * j;
    Regroup(y / Ulp(y), j, Ulp(x));
  }

  lemma Regroup(a: nat, b: nat, c: nat)
    ensures a * (b * c) == (a * b) * c
  {
  }

  /** A float on a finer grid than that of x lies below x's binade. */
  lemma BelowBinade(x: nat, y: nat)
    requires y < x && 2 * Ulp(y) <= Ulp(x)
    ensures y < TWO52 * Ulp(x) <= x
  {
    UlpScale(x);
    UlpScale(y);
  }
}
