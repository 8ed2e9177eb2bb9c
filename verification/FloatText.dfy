/** The rounding interval of the writer is the set of decimals that the reader rounds to the value (host/float.ts:85-90, 252-297). */
module FloatText {
  import opened Powers
  import opened Rationals
  import opened FloatDigits
  import opened FloatClosest
  import opened FloatReader

  // ----- the rounding interval is the set of values that read back -----

  /** Two even floats equally near have an odd one between them, which is nearer. */
  lemma TieIsOdd(x: Ratio, m: nat, u: int, n: nat, w: int, c: nat)
    requires c >= 1076 && Canonical(m, u) && Canonical(n, w) && m % 2 == 0 && n % 2 == 0
    requires Off(x, At(m, u, c), c) == Off(x, At(n, w, c), c)
    ensures Canonical(m + 1, u)
    ensures At(m, u, c) < At(n, w, c) ==> Off(x, At(m + 1, u, c), c) < Off(x, At(m, u, c), c)
  {
    var p, a, b := Pow(2, u + c), At(m, u, c), At(n, w, c);
    GapAbove(m, u, n, w, c);
    GapAbove(m + 1, u, n, w, c);
    assert At(m + 1, u, c) == a + p;
    hide Pow, Abs, At;
    if a + p < b {
      MiddleNearer(a, p, b, x.den, x.num * Pow(2, c));
    }
  }

  lemma MiddleNearer(a: nat, p: nat, b: nat, d: nat, n: nat)
    requires p > 0 && d > 0 && a + p < b && Abs(a * d - n) == Abs(b * d - n)
    ensures Abs((a + p) * d - n) < Abs(a * d - n)
  {
    MulStrict(a, a + p, d);
    MulStrict(a + p, b, d);
  }

  lemma NoLowerRival(x: Ratio, m: nat, u: int, n: nat, w: int, c: nat)
    requires c >= 1076 && Rounded(x, Finite(m, u)) && Rounded(x, Finite(n, w))
    ensures At(m, u, c) >= At(n, w, c)
  {
    hide Pow, Nearer, Less, Off, At;
    NearerScaled(x, m, u, n, w, c);
    NearerScaled(x, n, w, m, u, c);
    if (m, u) != (n, w) {
      TieIsOdd(x, m, u, n, w, c);
      NearerScaled(x, m, u, m + 1, u, c);
    }
  }

  /** The rounding rule leaves no choice. */
  lemma RoundedUnique(x: Ratio, r: Float64, s: Float64)
    requires Rounded(x, r) && Rounded(x, s)
    ensures r == s
  {
    LessAtMost(x, Threshold());
    if r.Finite? && s.Finite? {
      var c: nat :| c >= 1076;
      GapAbove(r.m, r.u, s.m, s.u, c);
      NoLowerRival(x, r.m, r.u, s.m, s.u, c);
      NoLowerRival(x, s.m, s.u, r.m, r.u, c);
    }
  }

  predicate FiniteFloat64(p: FloatParts) {
    Binary64(p) && p.f < 2 * FloatReader.HIDDEN && p.e <= MAX_UNIT
  }

  lemma PartsAreCanonical(p: FloatParts)
    requires FiniteFloat64(p)
    ensures Canonical(p.f, p.e) && p.hidden == FloatReader.HIDDEN
  {
    assert Pow(2, 0) == 1;
    PowHidden(0);
    hide Pow;
  }

  /** The interval in quarter units: 2 of them up, and 2 or 1 down. */
  lemma InsideScaled(p: FloatParts, x: Ratio, c: nat)
    requires p.f >= 1 && p.e - 2 + c >= 0
    ensures var q, v, n := Pow(2, p.e - 2 + c) * x.den, At(p.f, p.e, c) * x.den, x.num * Pow(2, c);
            p.Inside(x) <==> Between(p.f % 2 == 0, v - (if p.Narrow() then q else 2 * q), n, v + 2 * q)
  {
    var f, u, d := p.f, p.e, x.den;
    var w := Pow(2, u - 2 + c);
    PowTwo(u - 2 + c);
    PowTwo(u - 1 + c);
    hide Pow, Less, AtMost, Scale;
    CompareScaled(x, 2 * f + 1, u - 1, c);
    CompareScaled(x, 2 * f - 1, u - 1, c);
    CompareScaled(x, 4 * f - 1, u - 2, c);
    QuarterEnds(f, w, d);
  }

  lemma QuarterEnds(f: int, w: int, d: int)
    ensures (2 * f + 1) * (2 * w) * d == f * (4 * w) * d + 2 * (w * d)
    ensures (2 * f - 1) * (2 * w) * d == f * (4 * w) * d - 2 * (w * d)
    ensures (4 * f - 1) * w * d == f * (4 * w) * d - w * d
    ensures f * (2 * (2 * w)) * d == f * (4 * w) * d
  {
    var z := w * d;
    assert (2 * f + 1) * (2 * w) * d == (4 * f + 2) * z;
    assert (2 * f - 1) * (2 * w) * d == (4 * f - 2) * z;
    assert (4 * f - 1) * w * d == (4 * f - 1) * z;
    assert f * (4 * w) * d == 4 * (f * z);
  }

  /** The floats around p keep their distance: 4 quarter units, or 2 below in the narrow case. */
  lemma Neighbours(p: FloatParts, n: nat, w: int, c: nat)
    requires FiniteFloat64(p) && Canonical(n, w) && c >= 1078
    ensures var q, v, y := Pow(2, p.e - 2 + c), At(p.f, p.e, c), At(n, w, c);
            && (y > v ==> y >= v + 4 * q)
            && (y < v ==> y + (if p.Narrow() then 2 * q else 4 * q) <= v)
            && (y == v ==> (n, w) == (p.f, p.e))
  {
    var u, q := p.e, Pow(2, p.e - 2 + c);
    PartsAreCanonical(p);
    PowTwo(u - 2 + c);
    PowTwo(u - 1 + c);
    assert Pow(2, u + c) == 4 * q;
    GapAbove(p.f, u, n, w, c);
    if w >= u {
      OnGrid(p.f, n, 4 * q, w - u, u + c);
    } else {
      LowerNeighbour(p, n, w, c);
    }
  }

  lemma LowerNeighbour(p: FloatParts, n: nat, w: int, c: nat)
    requires FiniteFloat64(p) && Canonical(n, w) && c >= 1078 && w < p.e
    ensures At(n, w, c) + (if p.Narrow() then 2 else 4) * Pow(2, p.e - 2 + c) <= At(p.f, p.e, c)
  {
    var u, q := p.e, Pow(2, p.e - 2 + c);
    PartsAreCanonical(p);
    PowTwo(u - 2 + c);
    PowTwo(u - 1 + c);
    PowMono(2, w + c, u - 1 + c);
    hide Pow;
    var h := 2 * FloatReader.HIDDEN - 1;
    MulMono(n, h, Pow(2, w + c));
    MulMono(Pow(2, w + c), 2 * q, h);
    if !p.Narrow() {
      MulMono(FloatReader.HIDDEN + 1, p.f, 4 * q);
    }
  }

  lemma NearestOfGap(even: bool, narrow: bool, q: nat, v: nat, y: nat, d: nat, n: nat)
    requires d > 0 && q > 0
    requires Between(even, v * d - (if narrow then q * d else 2 * (q * d)), n, v * d + 2 * (q * d))
    requires y >= v + 4 * q || y + (if narrow then 2 * q else 4 * q) <= v || y == v
    ensures Abs(v * d - n) <= Abs(y * d - n)
    ensures y != v && Abs(y * d - n) <= Abs(v * d - n) ==> even
  {
    var z := q * d;
    assert 0 < z;
    assert (v + 4 * q) * d == v * d + 4 * z;
    assert (y + 4 * q) * d == y * d + 4 * z && (y + 2 * q) * d == y * d + 2 * z;
    if y > v {
      MulMono(v + 4 * q, y, d);
    } else if y < v {
      MulMono(y + (if narrow then 2 * q else 4 * q), v, d);
    }
  }

  lemma InsideNearest(p: FloatParts, x: Ratio, n: nat, w: int, c: nat)
    requires FiniteFloat64(p) && Canonical(n, w) && c >= 1078 && p.Inside(x)
    ensures Off(x, At(p.f, p.e, c), c) <= Off(x, At(n, w, c), c)
    ensures (n, w) != (p.f, p.e) && Off(x, At(n, w, c), c) <= Off(x, At(p.f, p.e, c), c) ==> p.f % 2 == 0
  {
    InsideScaled(p, x, c);
    Neighbours(p, n, w, c);
    hide Pow, At, FloatParts.Inside, Binary64, Abs, Between;
    NearestOfGap(p.f % 2 == 0, p.Narrow(), Pow(2, p.e - 2 + c), At(p.f, p.e, c), At(n, w, c), x.den, x.num * Pow(2, c));
  }

  lemma UnderThreshold(f: nat, z: nat, t: nat, n: nat, top: bool)
    requires f < 2 * FloatReader.HIDDEN && z > 0 && n <= 4 * (f * z) + 2 * z && (f % 2 == 1 ==> n < 4 * (f * z) + 2 * z)
    requires if top then t == 2 * z else 4 * z <= t
    ensures n < (4 * FloatReader.HIDDEN - 1) * t
  {
    var h := FloatReader.HIDDEN;
    MulMono(f, 2 * h - 1, z);
    if f < 2 * h - 1 {
      MulMono(f, 2 * h - 2, z);
    }
  }

  lemma InsideBelowThreshold(p: FloatParts, x: Ratio)
    requires FiniteFloat64(p) && p.Inside(x)
    ensures Less(x, Threshold())
  {
    var c: nat :| c >= 1078;
    var u, q, t, d := p.e, Pow(2, p.e - 2 + c), Pow(2, 970 + c), x.den;
    InsideScaled(p, x, c);
    ScaledThreshold(x, c);
    PowTwo(u - 2 + c);
    PowTwo(u - 1 + c);
    PowTwo(969 + c);
    if u < 971 {
      PowMono(2, u - 2 + c, 968 + c);
      PowTwo(968 + c);
    }
    hide Pow, FloatParts.Inside, Less, Threshold;
    FourTimes(p.f, q, d);
    ThresholdUnit(q, t, d, u == 971);
    UnderThreshold(p.f, q * d, t * d, x.num * Pow(2, c), u == 971);
  }

  lemma ThresholdUnit(q: nat, t: nat, d: nat, top: bool)
    requires q > 0 && d > 0 && if top then t == 2 * q else 4 * q <= t
    ensures q * d > 0 && if top then t * d == 2 * (q * d) else 4 * (q * d) <= t * d
  {
    if !top {
      MulMono(4 * q, t, d);
    }
  }

  lemma FourTimes(f: int, q: int, d: int)
    ensures f * (2 * (2 * q)) * d == 4 * (f * (q * d))
  {}

  /** Every value in the interval `digits` works with reads back as the float it prints. */
  lemma InsideRounds(p: FloatParts, x: Ratio)
    requires FiniteFloat64(p) && p.Inside(x)
    ensures Rounded(x, Finite(p.f, p.e))
  {
    var c: nat :| c >= 1078;
    PartsAreCanonical(p);
    InsideBelowThreshold(p, x);
    forall n: nat, w: int | Canonical(n, w)
      ensures Nearer(x, Binary(p.f, p.e), Binary(n, w))
      ensures (n, w) != (p.f, p.e) && Nearer(x, Binary(n, w), Binary(p.f, p.e)) ==> p.f % 2 == 0
    {
      hide Pow, Nearer, FloatParts.Inside, Off, At, Binary64;
      NearerScaled(x, p.f, p.e, n, w, c);
      NearerScaled(x, n, w, p.f, p.e, c);
      InsideNearest(p, x, n, w, c);
    }
  }

  // The next float up and down; the step up from the largest one is the threshold's.

  function Above(p: FloatParts): (nat, int) {
    if p.f + 1 == 2 * FloatReader.HIDDEN then (FloatReader.HIDDEN, p.e + 1) else (p.f + 1, p.e)
  }

  function Below(p: FloatParts): (nat, int)
    requires p.f >= 1
  {
    if p.Narrow() then (2 * FloatReader.HIDDEN - 1, p.e - 1) else (p.f - 1, p.e)
  }

  lemma NextAbove(p: FloatParts, c: nat)
    requires FiniteFloat64(p) && c >= 1078
    ensures Above(p).1 <= MAX_UNIT ==> Canonical(Above(p).0, Above(p).1)
    ensures At(Above(p).0, Above(p).1, c) == At(p.f, p.e, c) + 4 * Pow(2, p.e - 2 + c)
  {
    PartsAreCanonical(p);
    Quadruple(p.e - 2 + c);
    PowTwo(p.e + c);
    hide Pow;
    OneMore(p.f, Pow(2, p.e + c));
  }

  lemma NextBelow(p: FloatParts, c: nat)
    requires FiniteFloat64(p) && c >= 1078
    ensures Canonical(Below(p).0, Below(p).1)
    ensures At(Below(p).0, Below(p).1, c) == At(p.f, p.e, c) - (if p.Narrow() then 2 else 4) * Pow(2, p.e - 2 + c)
  {
    PartsAreCanonical(p);
    Quadruple(p.e - 2 + c);
    PowTwo(p.e - 2 + c);
    hide Pow;
    OneMore(p.f, Pow(2, p.e + c));
    OneMore(2 * FloatReader.HIDDEN, Pow(2, p.e - 1 + c));
  }

  lemma Quadruple(n: nat)
    ensures Pow(2, n + 2) == 4 * Pow(2, n)
  {
    PowTwo(n);
    PowTwo(n + 1);
  }

  lemma OneMore(f: int, q: int)
    ensures (f + 1) * q == f * q + q && (f - 1) * q == f * q - q && 2 * f * q == f * (2 * q)
  {}

  lemma NextFloats(p: FloatParts, c: nat)
    requires FiniteFloat64(p) && c >= 1078
    ensures Canonical(Below(p).0, Below(p).1) && (Above(p).1 <= MAX_UNIT ==> Canonical(Above(p).0, Above(p).1))
    ensures var q, v := Pow(2, p.e - 2 + c), At(p.f, p.e, c);
            && At(Above(p).0, Above(p).1, c) == v + 4 * q
            && At(Below(p).0, Below(p).1, c) == v - (if p.Narrow() then 2 * q else 4 * q)
  {
    hide Pow, At, Above, Below;
    NextAbove(p, c);
    NextBelow(p, c);
  }

  lemma WithinHalf(v: nat, y: nat, g: nat, d: nat, n: nat, even: bool)
    requires d > 0 && g > 0 && (y == v + 2 * g || v == y + 2 * g)
    requires Abs(v * d - n) <= Abs(y * d - n) && (Abs(y * d - n) <= Abs(v * d - n) ==> even)
    ensures y > v ==> (if even then n <= v * d + g * d else n < v * d + g * d)
    ensures y < v ==> (if even then v * d - g * d <= n else v * d - g * d < n)
  {
    assert (v + 2 * g) * d == v * d + 2 * (g * d);
    assert (y + 2 * g) * d == y * d + 2 * (g * d);
    MulStrict(0, g, d);
  }

  /** Being rounded to p over another float at distance 2g keeps x within g. */
  lemma WithinHalfOf(p: FloatParts, x: Ratio, n: nat, w: int, g: nat, c: nat)
    requires FiniteFloat64(p) && Rounded(x, Finite(p.f, p.e)) && Canonical(n, w) && c >= 1078 && g > 0
    requires At(n, w, c) == At(p.f, p.e, c) + 2 * g || At(p.f, p.e, c) == At(n, w, c) + 2 * g
    ensures var even, vd, gd, k := p.f % 2 == 0, At(p.f, p.e, c) * x.den, g * x.den, x.num * Pow(2, c);
            && (At(n, w, c) > At(p.f, p.e, c) ==> if even then k <= vd + gd else k < vd + gd)
            && (At(n, w, c) < At(p.f, p.e, c) ==> if even then vd - gd <= k else vd - gd < k)
  {
    assert Nearer(x, Binary(p.f, p.e), Binary(n, w)) && (Nearer(x, Binary(n, w), Binary(p.f, p.e)) ==>
      p.f % 2 == 0 || (n, w) == (p.f, p.e));
    hide Pow, Nearer, At, Abs, Binary64, Canonical, Less, Rounded;
    NearerScaled(x, p.f, p.e, n, w, c);
    NearerScaled(x, n, w, p.f, p.e, c);
    WithinHalf(At(p.f, p.e, c), At(n, w, c), g, x.den, x.num * Pow(2, c), p.f % 2 == 0);
  }

  /** The interval is no smaller: what reads back as p lies in it. */
  lemma RoundsInside(p: FloatParts, x: Ratio)
    requires FiniteFloat64(p) && Rounded(x, Finite(p.f, p.e))
    ensures p.Inside(x)
  {
    var c: nat :| c >= 1078;
    var q := Pow(2, p.e - 2 + c);
    NextFloats(p, c);
    assert Less(x, Threshold());
    hide Pow, At, FloatParts.Inside, Binary64, Canonical, Less, Rounded;
    InsideScaled(p, x, c);
    Assoc(2, q, x.den);
    WithinHalfOf(p, x, Below(p).0, Below(p).1, if p.Narrow() then q else 2 * q, c);
    if Above(p).1 <= MAX_UNIT {
      WithinHalfOf(p, x, Above(p).0, Above(p).1, 2 * q, c);
    } else {
      LargestBelow(p, x, c);
    }
  }

  lemma LargestBelow(p: FloatParts, x: Ratio, c: nat)
    requires FiniteFloat64(p) && c >= 1078 && Less(x, Threshold()) && p.e == MAX_UNIT && p.f + 1 == 2 * FloatReader.HIDDEN
    ensures x.num * Pow(2, c) < At(p.f, p.e, c) * x.den + 2 * (Pow(2, p.e - 2 + c) * x.den)
  {
    ScaledThreshold(x, c);
    PowTwo(969 + c);
    PowTwo(970 + c);
    hide Pow, Less, Threshold;
    var q, d := Pow(2, 969 + c), x.den;
    assert (2 * q) * d == 2 * (q * d);
    assert p.f * (4 * q) * d == 4 * p.f * (q * d);
  }

  /** The rounding interval of `digits` is exactly the set of values that `parseExact` reads back as the float. */
  lemma InsideExactly(p: FloatParts, x: Ratio)
    requires FiniteFloat64(p)
    ensures p.Inside(x) <==> Rounded(x, Finite(p.f, p.e))
  {
    hide FloatParts.Inside, Rounded;
    if p.Inside(x) {
      InsideRounds(p, x);
    }
    if Rounded(x, Finite(p.f, p.e)) {
      RoundsInside(p, x);
    }
  }
}
