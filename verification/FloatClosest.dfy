/**
 When the digits of host/float.ts are the closest of their length. On their own grid they always are. A decimal on a
 finer grid can be closer only for one digit, where the printed 10^(k-1) rounds up past 9 * 10^(k-2); that needs a
 significand below 10, and the two float widths never meet it.
 */
module FloatClosest {
  import opened Powers
  import opened Rationals
  import opened FloatDigits

  /** No decimal of at most n digits in the interval, at any scale, is closer to the value. */
  ghost predicate ClosestOfLength(p: FloatParts, d: nat, n: nat, k: int)
    requires p.f >= 1
  {
    forall m: nat, j: int :: m < Pow(10, n) && p.Inside(Decimal(m, j)) ==>
      Nearer(p.Value(), Decimal(d, k - n), Decimal(m, j))
  }

  /** The value is below 9.5 * 10^(k-2) while 9 * 10^(k-2) reads back as it. */
  predicate CrossesDecade(p: FloatParts, k: int)
    requires p.f >= 1
  {
    p.Inside(Decimal(9, k - 2)) && Less(p.Value(), Decimal(95, k - 3))
  }

  /** The grid of 10^(k-3) in scaled integers. */
  lemma ValueOnGrid(p: FloatParts, m: nat, a: nat, b: nat)
    requires p.f >= 1
    ensures Less(p.Value(), Decimal(m, b - a)) <==> ValueAt(p, a) < m * Step(p, b)
    ensures AtMost(p.Value(), Decimal(m, b - a)) <==> ValueAt(p, a) <= m * Step(p, b)
    ensures AtMost(Decimal(m, b - a), p.Value()) <==> m * Step(p, b) <= ValueAt(p, a)
  {
    var w := Interval(p);
    IntervalMeaning(p);
    ScaleCompare(m, 10, a, b, w.result, w.source);
    hide Pow, Interval, Same, Less, AtMost, Scale, FloatParts.Value;
    LessThrough(Decimal(m, b - a), Quotient(w.result, w.source), p.Value());
  }

  lemma Coarsen(p: FloatParts, m: nat, j: int, i: nat, z: nat)
    requires p.f >= 1 && z == Pow(10, i)
    ensures Same(Decimal(m, j), Decimal(m * z, j - i))
    ensures p.Inside(Decimal(m, j)) <==> p.Inside(Decimal(m * z, j - i))
  {
    hide Pow, FloatParts.Inside, Same, Scale;
    ScaleRefine(m, 10, j, j - i);
    assert j - (j - i) == i;
    InsideThrough(p, Decimal(m, j), Decimal(m * z, j - i));
  }

  /** 90 against 100 d, on the grid of 10^(b-a). */
  lemma NinetyOrHundred(p: FloatParts, d: nat, a: nat, b: nat)
    requires p.f >= 1 && d >= 1 && Less(p.Value(), Decimal(100, b - a))
    ensures Less(p.Value(), Decimal(95, b - a)) ==> !Nearer(p.Value(), Decimal(d * 100, b - a), Decimal(90, b - a))
    ensures !Less(p.Value(), Decimal(95, b - a)) ==>
              Nearer(p.Value(), Decimal(100, b - a), Decimal(90, b - a)) && AtMost(Decimal(90, b - a), p.Value())
  {
    hide Pow, Less, AtMost, Nearer, Scale, FloatParts.Value, ValueAt, Step;
    NearerAt(p, d * 100, 90, a, b);
    NearerAt(p, 100, 90, a, b);
    ValueOnGrid(p, 95, a, b);
    ValueOnGrid(p, 90, a, b);
    ValueOnGrid(p, 100, a, b);
    MulMono(100, d * 100, Step(p, b));
  }

  /** Seen from the value, 9 * 10^(k-2) against d * 10^(k-1). */
  lemma NineOrTen(p: FloatParts, d: nat, k: int)
    requires p.f >= 1 && d >= 1 && Less(p.Value(), Decimal(1, k - 1))
    ensures Less(p.Value(), Decimal(95, k - 3)) ==> !Nearer(p.Value(), Decimal(d, k - 1), Decimal(9, k - 2))
    ensures !Less(p.Value(), Decimal(95, k - 3)) ==>
              Nearer(p.Value(), Decimal(1, k - 1), Decimal(9, k - 2)) && AtMost(Decimal(9, k - 2), p.Value())
  {
    var v := p.Value();
    assert Pow(10, 1) == 10 && Pow(10, 2) == 100;
    hide Pow, Same, Less, AtMost, Nearer, Decimal, FloatParts.Value, FloatParts.Inside;
    Coarsen(p, d, k - 1, 2, 100);
    Coarsen(p, 1, k - 1, 2, 100);
    Coarsen(p, 9, k - 2, 1, 10);
    LessThrough(v, Decimal(1, k - 1), Decimal(100, k - 3));
    LessThrough(v, Decimal(9, k - 2), Decimal(90, k - 3));
    NearerPoints(v, Decimal(d, k - 1), Decimal(d * 100, k - 3), Decimal(9, k - 2), Decimal(90, k - 3));
    NearerPoints(v, Decimal(1, k - 1), Decimal(100, k - 3), Decimal(9, k - 2), Decimal(90, k - 3));
    NinetyOrHundred(p, d, Neg(k - 3), Pos(k - 3));
  }

  lemma AtLeastTen(n: nat)
    ensures n >= 1 ==> Pow(10, n) >= 10
  {}

  /** A decimal on a finer grid lies below 10^(k-1), which is then in the interval as well, so there is one digit. */
  lemma FinerMeansOneDigit(p: FloatParts, ds: string, k: int, m: nat, j: int)
    requires p.f >= 1 && IsShortest(p, ds, k)
    requires m < Pow(10, |ds|) && p.Inside(Decimal(m, j)) && j < k - |ds|
    ensures |ds| == 1 && Less(Decimal(m, j), Decimal(1, k - 1)) && p.Inside(Decimal(1, k - 1)) && m <= 9
  {
    hide FloatParts.Inside, Less, LeastExponent, ClosestOnGrid;
    BelowTop(m, j, |ds|, k);
    BelowLeading(p, Decimal(m, j), k);
    AtLeastTen(|ds| - 1);
  }

  lemma NineBelow(m: nat, j: int, k: int)
    requires m <= 9 && j <= k - 2
    ensures AtMost(Decimal(m, j), Decimal(9, k - 2))
  {
    hide Pow, AtMost, Same, Scale;
    var z := Pow(10, k - 2 - j);
    ScaleRefine(9, 10, k - 2, j);
    ScaleOrder(m, 9 * z, 10, j);
    LessThrough(Decimal(m, j), Decimal(9, k - 2), Decimal(9 * z, j));
  }

  lemma Convex(p: FloatParts, x: Ratio, y: Ratio, z: Ratio)
    requires p.f >= 1 && p.Inside(x) && p.Inside(z) && AtMost(x, y) && AtMost(y, z)
    ensures p.Inside(y)
  {
    hide Less, AtMost, Same, FloatParts.Low, FloatParts.High;
    LessAtMost(p.Low(), x);
    LessAtMost(z, p.High());
    LessTrans(p.Low(), x, y);
    LessTrans(y, z, p.High());
  }

  /** A finer one-digit decimal is no closer, unless the value crosses the decade. */
  lemma FinerIsFarther(p: FloatParts, ds: string, k: int, m: nat, j: int)
    requires p.f >= 1 && IsShortest(p, ds, k) && !CrossesDecade(p, k)
    requires m < Pow(10, |ds|) && p.Inside(Decimal(m, j)) && j < k - |ds|
    ensures Nearer(p.Value(), Decimal(NatOf(ds), k - |ds|), Decimal(m, j))
  {
    var v, x, y, c, z := p.Value(), Decimal(NatOf(ds), k - 1), Decimal(m, j), Decimal(9, k - 2), Decimal(1, k - 1);
    FinerMeansOneDigit(p, ds, k, m, j);
    assert Nearer(v, x, z);
    hide IsShortest, FloatParts.Inside, FloatParts.Value, Less, AtMost, Nearer, Decimal, Pow;
    LessAtMost(y, z);
    LessAtMost(v, z);
    if Less(v, z) {
      NineOrTen(p, 1, k);
      NineBelow(m, j, k);
      NineUnderTen(k);
      if Less(v, Decimal(95, k - 3)) {
        Convex(p, y, c, z);
      } else {
        NearerBelow(v, c, y);
        NearerTrans(v, z, c, y);
      }
    } else {
      NearerBelow(v, z, y);
    }
    NearerTrans(v, x, z, y);
  }

  lemma NineUnderTen(k: int)
    ensures AtMost(Decimal(9, k - 2), Decimal(1, k - 1))
  {
    assert Pow(10, 1) == 10;
    hide Pow, Same, AtMost, Scale;
    ScaleRefine(1, 10, k - 1, k - 2);
    ScaleOrder(9, 10, 10, k - 2);
    LessThrough(Decimal(9, k - 2), Decimal(1, k - 1), Decimal(10, k - 2));
  }

  /** On the digits' own grid or a coarser one, they are the closest. */
  lemma CoarserIsFarther(p: FloatParts, ds: string, k: int, m: nat, j: int)
    requires p.f >= 1 && IsShortest(p, ds, k) && p.Inside(Decimal(m, j)) && j >= k - |ds|
    ensures Nearer(p.Value(), Decimal(NatOf(ds), k - |ds|), Decimal(m, j))
  {
    hide Pow, FloatParts.Inside, FloatParts.Value, Same, Nearer, Scale, LeastExponent, NoneShorter, NatOf, AllDigits;
    var q, v := k - |ds|, p.Value();
    var m' := m * Pow(10, j - q);
    ScaleRefine(m, 10, j, q);
    InsideThrough(p, Decimal(m, j), Decimal(m', q));
    SelfSame(Decimal(NatOf(ds), q));
    NearerPoints(v, Decimal(NatOf(ds), q), Decimal(NatOf(ds), q), Decimal(m, j), Decimal(m', q));
  }

  lemma SelfSame(x: Ratio)
    ensures Same(x, x)
  {}

  /** The digits are the closest of their length exactly when the value does not cross the decade. */
  lemma ClosestExactly(p: FloatParts, ds: string, k: int)
    requires p.f >= 1 && IsShortest(p, ds, k)
    ensures ClosestOfLength(p, NatOf(ds), |ds|, k) <==> !CrossesDecade(p, k)
  {
    if CrossesDecade(p, k) {
      CrossedIsCloser(p, ds, k);
    } else {
      forall m: nat, j: int | m < Pow(10, |ds|) && p.Inside(Decimal(m, j))
        ensures Nearer(p.Value(), Decimal(NatOf(ds), k - |ds|), Decimal(m, j))
      {
        hide IsShortest, FloatParts.Inside, FloatParts.Value, Nearer, Decimal, Pow;
        if j < k - |ds| {
          FinerIsFarther(p, ds, k, m, j);
        } else {
          CoarserIsFarther(p, ds, k, m, j);
        }
      }
    }
  }

  lemma CrossedIsCloser(p: FloatParts, ds: string, k: int)
    requires p.f >= 1 && IsShortest(p, ds, k) && CrossesDecade(p, k)
    ensures !ClosestOfLength(p, NatOf(ds), |ds|, k)
  {
    AtLeastTen(|ds| - 1);
    assert |ds| == 1;
    assert NatOf(ds) >= 1 by { NatOfBound(ds); }
    hide FloatParts.Inside, FloatParts.Value, Less, AtMost, Nearer, Decimal, Pow;
    NinetyFive(k);
    LessAtMost(p.Value(), Decimal(95, k - 3));
    LessTrans(p.Value(), Decimal(95, k - 3), Decimal(1, k - 1));
    NineOrTen(p, NatOf(ds), k);
  }

  lemma NinetyFive(k: int)
    ensures AtMost(Decimal(95, k - 3), Decimal(1, k - 1))
  {
    assert Pow(10, 2) == 100;
    hide Pow, Same, AtMost, Scale;
    ScaleRefine(1, 10, k - 1, k - 3);
    ScaleOrder(95, 100, 10, k - 3);
    LessThrough(Decimal(95, k - 3), Decimal(1, k - 1), Decimal(100, k - 3));
  }

  // ----- the two widths of host/float.ts -----

  /** The parts `split` makes of a nonzero binary32: normal, or subnormal with the least exponent. */
  predicate Binary32(p: FloatParts) {
    p.f >= 1 && p.min == -149 && p.hidden == Pow(2, 23) && (p.e == p.min || (p.e > p.min && p.f >= p.hidden))
  }

  predicate Binary64(p: FloatParts) {
    p.f >= 1 && p.min == -1074 && p.hidden == Pow(2, 52) && (p.e == p.min || (p.e > p.min && p.f >= p.hidden))
  }

  lemma UpIsShare(p: FloatParts, a: nat)
    requires p.f >= 1
    ensures ValueAt(p, a) == 2 * p.f * UpAt(p, a)
  {
    var w, t := Interval(p), Pow(10, a);
    IntervalForm(p);
    assert w.result == 2 * p.f * w.up;
    hide Interval, Pow;
    Assoc(2 * p.f, w.up, t);
  }

  predicate Cramped(f: nat, u: nat, s: nat) {
    2 * f * u < 95 * s
  }

  predicate Reaching(f: nat, u: nat, s: nat) {
    (2 * f + 1) * u >= 100 * s
  }

  /** Crossing the decade takes an interval wider than a tenth of the value. */
  lemma CrossingIsCoarse(p: FloatParts, k: int, a: nat, b: nat)
    requires p.f >= 1 && LeastExponent(p, k) && k - 3 == b - a
    ensures CrossesDecade(p, k) ==> p.f <= 9 && Cramped(p.f, UpAt(p, a), Step(p, b))
    ensures Reaching(p.f, UpAt(p, a), Step(p, b))
  {
    hide Pow, Interval, ValueAt, UpAt, Step, HighAt, FloatParts.Inside, FloatParts.Value, Less;
    ValueOnGrid(p, 95, a, b);
    UpIsShare(p, a);
    EndsAt(p, a);
    HundredAt(p, k, a, b);
    assert (2 * p.f + 1) * UpAt(p, a) == 2 * p.f * UpAt(p, a) + UpAt(p, a);
    if p.f >= 10 {
      MulMono(20, 2 * p.f, UpAt(p, a));
    }
  }

  lemma HundredAt(p: FloatParts, k: int, a: nat, b: nat)
    requires p.f >= 1 && LeastExponent(p, k) && k - 3 == b - a
    ensures 100 * Step(p, b) <= HighAt(p, a)
  {
    ExponentAt(p, a, b + 3);
    TenTimes(p, b);
    TenTimes(p, b + 1);
    TenTimes(p, b + 2);
  }

  /** With f below 10 the value is subnormal, so its interval is known up to the scale. */
  lemma SubnormalEnds(p: FloatParts, a: nat, b: nat)
    requires p.f >= 1 && p.e < 0 && !p.Narrow()
    ensures UpAt(p, a) == Pow(10, a) && Step(p, b) == 2 * (Pow(2, -p.e) * Pow(10, b))
  {
    hide Pow;
    Assoc(2, Pow(2, -p.e), Pow(10, b));
  }

  lemma TenFold(a: nat, b: nat)
    requires a < b
    ensures 10 * Pow(10, a) <= Pow(10, b)
  {
    PowMono(10, a + 1, b);
  }

  predicate Pinched(t: nat, top: nat, m: nat) {
    2 <= t <= 10 && (2 * t - 1) * Pow(10, top) < 200 * m && 2 * t * Pow(10, top) >= 190 * m
  }

  /** Between t - 1 and t no significand fits: 10^top is too small for f < t and too large for f >= t. */
  lemma Squeeze(f: nat, a: nat, m: nat, top: nat, t: nat)
    requires 1 <= f <= 9 && Pinched(t, top, m)
    ensures Cramped(f, Pow(10, a), 2 * m) ==> !Reaching(f, Pow(10, a), 2 * m)
  {
    hide Pow;
    var x, z := Pow(10, a), Pow(10, top);
    if a < top {
      TenFold(a, top);
      MulMono(2 * f + 1, 19, x);
      MulMono(3, 2 * t - 1, z);
    } else if a > top {
      TenFold(top, a);
      MulMono(2, 2 * f, x);
      MulMono(2 * t, 20, z);
    } else {
      MulStrict(2 * t - 1, 2 * f + 1, z);
      MulStrict(2 * f, 2 * t, z);
    }
  }

  lemma TooSmall(f: nat, m: nat, b: nat)
    requires f <= 9 && m >= 1 && b > 0
    ensures !Reaching(f, 1, 2 * (m * Pow(10, b)))
  {
    MulMono(1, m, Pow(10, b));
  }

  lemma NeverCrosses(p: FloatParts, k: int, top: nat, t: nat)
    requires p.f >= 1 && p.e < 0 && !p.Narrow() && LeastExponent(p, k)
    requires Pinched(t, top, Pow(2, -p.e))
    ensures !CrossesDecade(p, k)
  {
    var f, a, b, m := p.f, Neg(k - 3), Pos(k - 3), Pow(2, -p.e);
    assert Pow(10, 0) == 1;
    hide Pow, Step, UpAt, CrossesDecade, LeastExponent, Cramped, Reaching, Pinched;
    CrossingIsCoarse(p, k, a, b);
    SubnormalEnds(p, a, b);
    if f <= 9 {
      if b > 0 {
        TooSmall(f, m, b);
      } else {
        assert m * Pow(10, b) == m;
        Squeeze(f, a, m, top, t);
      }
    }
  }

  const TWO_149: nat := 713623846352979940529142984724747568191373312
  const TEN_46: nat := 10000000000000000000000000000000000000000000000

  lemma LargePowers()
    ensures Pow(10, 46) == TEN_46 && Pow(2, 149) == TWO_149
  {
    Product(10, 5, 5, 100000, 100000);
    Product(10, 10, 10, 10000000000, 10000000000);
    Product(10, 20, 20, 100000000000000000000, 100000000000000000000);
    Product(10, 40, 6, 10000000000000000000000000000000000000000, 1000000);
    Product(2, 9, 9, 512, 512);
    Product(2, 18, 18, 262144, 262144);
    Product(2, 36, 36, 68719476736, 68719476736);
    Product(2, 72, 72, 4722366482869645213696, 4722366482869645213696);
    Product(2, 144, 5, 22300745198530623141535718272648361505980416, 32);
  }

  lemma Seventh(b: nat, n: nat, x: nat)
    requires Pow(b, n) == x
    ensures Pow(b, 7 * n) == x * x * (x * x) * (x * x * x)
  {
    Product(b, n, n, x, x);
    Product(b, n + n, n, x * x, x);
    Product(b, n + n, n + n, x * x, x * x);
    Product(b, 4 * n, 3 * n, x * x * (x * x), x * x * x);
  }

  lemma Constants32()
    ensures Pinched(7, 46, Pow(2, 149))
  {
    hide Pow;
    LargePowers();
  }

  lemma SmallPowers()
    ensures Pow(10, 3) == 1000 && Pow(2, 31) == 2147483648
  {
    Product(2, 8, 8, 256, 256);
    Product(2, 16, 15, 65536, 32768);
  }

  lemma Constants64()
    ensures Pinched(2, 325, Pow(2, 1074))
  {
    hide Pow;
    LargePowers();
    SmallPowers();
    Seventh(10, 46, TEN_46);
    Seventh(2, 149, TWO_149);
    PowAdd(10, 322, 3);
    PowAdd(2, 1043, 31);
  }

  lemma NotSmall(p: FloatParts, k: int)
    requires p.f >= 10 && LeastExponent(p, k)
    ensures !CrossesDecade(p, k)
  {
    hide LeastExponent, CrossesDecade;
    CrossingIsCoarse(p, k, Neg(k - 3), Pos(k - 3));
  }

  lemma HiddenIsLarge(n: nat)
    ensures n >= 4 ==> Pow(2, n) >= 16
  {
    assert Pow(2, 4) == 16;
    if n >= 4 {
      PowMono(2, 4, n);
    }
  }

  lemma PinchedAt(e: int)
    requires e == -149 || e == -1074
    ensures if e == -149 then Pinched(7, 46, Pow(2, -e)) else Pinched(2, 325, Pow(2, -e))
  {
    if e == -149 {
      Constants32();
    } else {
      Constants64();
    }
  }

  lemma FloatsNeverCross(p: FloatParts, k: int)
    requires (Binary32(p) || Binary64(p)) && LeastExponent(p, k)
    ensures !CrossesDecade(p, k)
  {
    hide Pow, LeastExponent, CrossesDecade, Pinched;
    HiddenIsLarge(23);
    HiddenIsLarge(52);
    if p.f >= 10 {
      NotSmall(p, k);
    } else {
      PinchedAt(p.e);
      NeverCrosses(p, k, if p.e == -149 then 46 else 325, if p.e == -149 then 7 else 2);
    }
  }

  /** Neither width of host/float.ts ever meets the exception: the digits are the closest of their length. */
  lemma ClosestForFloats(p: FloatParts, ds: string, k: int)
    requires Binary32(p) || Binary64(p)
    requires IsShortest(p, ds, k)
    ensures ClosestOfLength(p, NatOf(ds), |ds|, k)
  {
    assert LeastExponent(p, k);
    hide IsShortest, ClosestOfLength, CrossesDecade, LeastExponent, Binary32, Binary64;
    FloatsNeverCross(p, k);
    ClosestExactly(p, ds, k);
  }

  const EIGHT := FloatParts(false, 1, 3, 0, 2)

  lemma AroundEight(n: nat)
    ensures EIGHT.Inside(Decimal(n, 0)) <==> 4 < n < 12
    ensures EIGHT.Inside(Decimal(n, 1)) <==> n == 1
    ensures LeastExponent(EIGHT, 2)
  {
    assert Pow(2, 2) == 4 && Pow(10, 1) == 10 && Pow(10, 0) == 1 && Pow(10, 2) == 100;
    hide Pow;
  }

  /** A significand no float width has there: 8 prints as 1 * 10^1, though "8" is as short and exact. */
  lemma ClosestCanFail()
    ensures IsShortest(EIGHT, "1", 2) && !ClosestOfLength(EIGHT, NatOf("1"), 1, 2)
  {
    AroundEight(8);
    AroundEight(1);
    assert NatOf("1") == 1 by { NatOfSnoc("", '1'); }
    assert Pow(10, 0) == 1;
    hide FloatParts.Inside, LeastExponent, FloatParts.Value, Nearer, Decimal, Pow;
    forall m: nat, j: int | m < Pow(10, 0)
      ensures !EIGHT.Inside(Decimal(m, j))
    {
      NotZero(EIGHT, j);
    }
    forall m: nat
      ensures EIGHT.Inside(Decimal(m, 1)) ==> m == 1
    {
      AroundEight(m);
    }
    EightIsCloser();
  }

  lemma EightIsCloser()
    ensures Nearer(EIGHT.Value(), Decimal(1, 1), Decimal(1, 1))
    ensures !Nearer(EIGHT.Value(), Decimal(1, 1), Decimal(8, 0)) && 8 < Pow(10, 1)
  {
    assert Pow(2, 3) == 8 && Pow(10, 1) == 10 && Pow(10, 0) == 1 && Pow(2, 0) == 1;
  }
}
