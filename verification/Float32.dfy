/**
  Conversion of a real number to single precision (binary32): round to nearest,
  ties to even, with 24 significant bits (sections 3.6 and 4.3.1 of IEEE 754-2019).
  Results beyond the largest finite binary32 number are not turned into infinities.
 */
module Float32 {

  const P23: real := 8388608.0
  const P24: real := 16777216.0

  /** Integer nearest to `x`, the even one of two equally near. */
  function NearestEven(x: real): (n: int)
    ensures -0.5 <= n as real - x <= 0.5
    ensures x == x.Floor as real ==> n == x.Floor
    ensures n as real - x == 0.5 || x - n as real == 0.5 ==> n % 2 == 0
  {
    var f := x.Floor;
    var d := x - f as real;
    if d < 0.5 || (d == 0.5 && f % 2 == 0) then f else f + 1
  }

  /** Rounding of a magnitude.  `x` is scaled by powers of two until it lies in
      [2^23, 2^24), where one unit in the last place is 1; `down` counts the scalings
      left before the smallest subnormal is reached. */
  function RoundMagnitude(x: real, down: nat): real
    requires x >= 0.0
    decreases if x >= P24 then x.Floor else 0, down
  {
    if x >= P24 then 2.0 * RoundMagnitude(x / 2.0, down)
    else if x >= P23 || down == 0 then NearestEven(x) as real
    else RoundMagnitude(2.0 * x, down - 1) / 2.0
  }

  const SMALLEST_EXPONENT: nat := 149

  function ToFloat32(x: real): real {
    if x < 0.0 then -RoundMagnitude(-x, SMALLEST_EXPONENT) else RoundMagnitude(x, SMALLEST_EXPONENT)
  }

  /** Multiplication and addition of binary32 numbers. */
  function Product32(x: real, y: real): real {
    ToFloat32(x * y)
  }

  function Sum32(x: real, y: real): real {
    ToFloat32(x + y)
  }

  /** `n` is an odd number below 2^24 times a power of two: what a conversion to
      binary32 can represent without rounding. */
  predicate Has24Bits(n: nat) {
    n < 16777216 || (n % 2 == 0 && Has24Bits(n / 2))
  }

  /** `x` times two to the `k`. */
  function Scale(x: real, k: nat): real {
    if k == 0 then x else 2.0 * Scale(x, k - 1)
  }

  function Distance(a: real, b: real): real {
    if a < b then b - a else a - b
  }

  // ----- bounds ---------------------------------------------------------------

  lemma {:induction false} RoundBounds(x: real, down: nat)
    requires x >= 0.0
    ensures RoundMagnitude(x, down) >= 0.0
    ensures x >= P23 ==> RoundMagnitude(x, down) >= P23
    ensures x <= P24 ==> RoundMagnitude(x, down) <= P24
    ensures x <= P23 ==> RoundMagnitude(x, down) <= P23
    decreases if x >= P24 then x.Floor else 0, down
  {
    if x >= P24 {
      RoundBounds(x / 2.0, down);
    } else if x >= P23 || down == 0 {
    } else {
      RoundBounds(2.0 * x, down - 1);
    }
  }

  /** Above 2^23 the rounded value is an integer. */
  lemma {:induction false} RoundLargeInteger(x: real, down: nat) returns (m: int)
    requires x >= P23
    ensures RoundMagnitude(x, down) == m as real
    decreases if x >= P24 then x.Floor else 0
  {
    if x >= P24 {
      var h := RoundLargeInteger(x / 2.0, down);
      m := 2 * h;
    } else {
      m := NearestEven(x);
    }
  }

  /** At most half a unit in the last place: a relative error of 2^-24. */
  lemma {:induction false} RoundError(x: real, down: nat)
    requires x >= P23
    ensures -x <= (RoundMagnitude(x, down) - x) * P24 <= x
    decreases if x >= P24 then x.Floor else 0, down
  {
    if x >= P24 {
      RoundError(x / 2.0, down);
    }
  }

  /** Half the distance of neighbouring numbers below the smallest power of two that `down`
      scalings bring to 2^23. */
  function Tiny(down: nat): (t: real)
    ensures t > 0.0
  {
    if down == 0 then 0.5 else Tiny(down - 1) / 2.0
  }

  /** For every magnitude: a relative error of 2^-24, and half a unit of the smallest numbers. */
  lemma {:induction false} RoundErrorBound(x: real, down: nat)
    requires x >= 0.0
    ensures Distance(RoundMagnitude(x, down), x) <= x / P24 + Tiny(down)
    decreases down
  {
    if x >= P23 {
      RoundError(x, down);
    } else if down > 0 {
      RoundErrorBound(2.0 * x, down - 1);
    }
  }

  lemma {:induction false} ScaledTiny(down: nat)
    ensures Scale(Tiny(down), down + 1) == 1.0
  {
    if down > 0 {
      ScaleHalf(Tiny(down - 1), down);
      ScaledTiny(down - 1);
    }
  }

  lemma {:induction false} ScaleHalf(x: real, k: nat)
    ensures Scale(x / 2.0, k + 1) == Scale(x, k)
  {
    if k > 0 {
      ScaleHalf(x, k - 1);
    }
  }

  /** Exactly the magnitudes up to that half vanish. */
  lemma {:induction false} RoundVanishes(x: real, down: nat)
    requires x >= 0.0
    ensures RoundMagnitude(x, down) == 0.0 <==> x <= Tiny(down)
    decreases down
  {
    if x >= P23 {
      RoundBounds(x, down);
      TinyBelowOne(down);
    } else if down > 0 {
      RoundVanishes(2.0 * x, down - 1);
    }
  }

  lemma {:induction false} TinyBelowOne(down: nat)
    ensures Tiny(down) < 1.0
  {
    if down > 0 {
      TinyBelowOne(down - 1);
    }
  }

  /** Conversion to single precision gives zero exactly up to 2^-150. */
  lemma VanishesBelowSmallest(x: real, tiny: real)
    requires Scale(tiny, 150) == 1.0
    ensures ToFloat32(x) == 0.0 <==> Magnitude(x) <= tiny
  {
    ScaledTiny(SMALLEST_EXPONENT);
    ScaleInjective(tiny, Tiny(SMALLEST_EXPONENT), 150);
    RoundVanishes(Magnitude(x), SMALLEST_EXPONENT);
  }

  lemma {:induction false} ScaleInjective(x: real, y: real, k: nat)
    requires Scale(x, k) == Scale(y, k)
    ensures x == y
  {
    if k > 0 {
      ScaleInjective(x, y, k - 1);
    }
  }

  function Magnitude(x: real): real {
    if x < 0.0 then -x else x
  }

  /** `y` is `x` after one rounding, as far as the error goes. */
  predicate Rounded(x: real, y: real, tiny: real) {
    Distance(y, x) <= Magnitude(x) / P24 + tiny
  }

  lemma Float32Error(x: real, tiny: real)
    requires tiny == Tiny(SMALLEST_EXPONENT)
    ensures Rounded(x, ToFloat32(x), tiny)
  {
    RoundErrorBound(Magnitude(x), SMALLEST_EXPONENT);
  }

  lemma Product32Error(x: real, y: real, product: real, tiny: real)
    requires tiny == Tiny(SMALLEST_EXPONENT) && product == x * y
    ensures Rounded(product, Product32(x, y), tiny)
  {
    Float32Error(x * y, tiny);
  }

  lemma Sum32Error(x: real, y: real, tiny: real)
    requires tiny == Tiny(SMALLEST_EXPONENT)
    ensures Rounded(x + y, Sum32(x, y), tiny)
  {
    Float32Error(x + y, tiny);
  }

  // ----- exactness ------------------------------------------------------------

  lemma {:induction false} RoundSmallInteger(n: nat, down: nat)
    requires n <= 16777216
    ensures RoundMagnitude(n as real, down) == n as real
    decreases if n == 16777216 then 1 else 0, down
  {
    var x := n as real;
    if n == 16777216 {
      assert x / 2.0 == 8388608 as real;
      RoundSmallInteger(8388608, down);
    } else if n >= 8388608 || down == 0 {
      assert NearestEven(x) == n;
    } else {
      assert 2.0 * x == (2 * n) as real;
      RoundSmallInteger(2 * n, down - 1);
    }
  }

  lemma OddIsNoDouble(n: nat, m: int)
    requires n % 2 == 1
    ensures n as real != 2.0 * m as real
  {
    assert 2.0 * m as real == (2 * m) as real;
  }

  lemma EvenIsDouble(n: nat)
    requires n % 2 == 0
    ensures n as real / 2.0 == (n / 2) as real
  {
    assert n == 2 * (n / 2);
  }

  /** Exactly the integers with 24 significant bits survive rounding. */
  lemma {:induction false} RoundIntegerExact(n: nat, down: nat)
    ensures RoundMagnitude(n as real, down) == n as real <==> Has24Bits(n)
  {
    if n < 16777216 {
      RoundSmallInteger(n, down);
    } else if n % 2 == 0 {
      EvenIsDouble(n);
      RoundIntegerExact(n / 2, down);
    } else {
      var m := RoundLargeInteger(n as real / 2.0, down);
      OddIsNoDouble(n, m);
    }
  }

  lemma NearestEvenIsNearest(x: real, y: int)
    ensures Distance(NearestEven(x) as real, x) <= Distance(y as real, x)
  {
    var n := NearestEven(x);
    assert y < n ==> y as real <= n as real - 1.0;
    assert y > n ==> y as real >= n as real + 1.0;
  }

  lemma Half24(y: nat)
    requires Has24Bits(y) && y >= 16777216
    ensures Has24Bits(y / 2) && y as real == 2.0 * (y / 2) as real
  {
    assert y == 2 * (y / 2);
  }

  lemma Twice24(y: nat)
    requires Has24Bits(y)
    ensures Has24Bits(2 * y) && (2 * y) as real == 2.0 * y as real
  {
    assert 2 * y / 2 == y;
  }

  /** No integer with 24 significant bits is nearer to `x` than the rounded value. */
  lemma {:induction false} RoundNearest(x: real, y: nat, down: nat)
    requires x >= 0.0 && Has24Bits(y)
    ensures Distance(RoundMagnitude(x, down), x) <= Distance(y as real, x)
    decreases if x >= P24 then x.Floor else 0, down
  {
    if x >= P24 {
      if y < 16777216 {
        assert Has24Bits(8388608);
        RoundNearest(x / 2.0, 8388608, down);
        assert y as real <= P24;
      } else {
        Half24(y);
        RoundNearest(x / 2.0, y / 2, down);
      }
    } else if x >= P23 || down == 0 {
      NearestEvenIsNearest(x, y);
    } else {
      Twice24(y);
      RoundNearest(2.0 * x, 2 * y, down - 1);
    }
  }

  lemma {:induction false} RoundIdempotent(x: real, down: nat)
    requires x >= 0.0
    ensures RoundMagnitude(x, down) >= 0.0
    ensures RoundMagnitude(RoundMagnitude(x, down), down) == RoundMagnitude(x, down)
    decreases if x >= P24 then x.Floor else 0, down
  {
    RoundBounds(x, down);
    if x >= P24 {
      RoundBounds(x / 2.0, down);
      RoundIdempotent(x / 2.0, down);
    } else if x >= P23 || down == 0 {
      RoundSmallInteger(NearestEven(x), down);
    } else {
      RoundBounds(2.0 * x, down - 1);
      RoundIdempotent(2.0 * x, down - 1);
      var z := RoundMagnitude(2.0 * x, down - 1);
      if z / 2.0 >= P23 {
        RoundSmallInteger(8388608, down);
      }
    }
  }

  // ----- when the rounded value stays below a power of two --------------------

  lemma {:induction false} ScaleGrows(x: real, k: nat)
    requires x >= 0.0
    ensures Scale(x, k) >= x
  {
    if k != 0 {
      ScaleGrows(x, k - 1);
    }
  }

  /** Rounding a value below 2^(24+k) reaches that power exactly from half a unit below it. */
  lemma {:induction false} RoundStaysBelow(x: real, k: nat, down: nat)
    requires 0.0 <= x < Scale(P24, k)
    ensures RoundMagnitude(x, down) <= Scale(P24, k)
    ensures RoundMagnitude(x, down) < Scale(P24, k) <==> x < Scale(P24 - 0.5, k)
    decreases k
  {
    RoundBounds(x, down);
    if k == 0 {
      if x >= P23 {
        assert x >= P24 - 0.5 ==> NearestEven(x) == 16777216;
      }
    } else if x >= P24 {
      RoundStaysBelow(x / 2.0, k - 1, down);
    } else {
      ScaleGrows(P24, k - 1);
      ScaleGrows(P24 - 0.5, k - 1);
    }
  }
}
