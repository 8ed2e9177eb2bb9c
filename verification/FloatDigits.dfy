/** Free-format printing: `interval` and `digits` of host/float.ts. */
module FloatDigits {
  import opened Powers
  import opened Rationals

  /** A finite value f * 2^e, the least exponent of its width, and the bit only normal significands have. */
  datatype FloatParts = FloatParts(negative: bool, f: nat, e: int, min: int, hidden: nat) {
    function Value(): Ratio {
      Binary(f, e)
    }

    /** The gap below is half the gap above: f is the least significand of a binade that has one below it. */
    predicate Narrow() {
      f == hidden && e != min
    }

    /** The midpoint with the next float above, (f + 1) * 2^e. */
    function High(): Ratio {
      Binary(2 * f + 1, e - 1)
    }

    /** The midpoint with the next float below: (f - 1) * 2^e, or half a gap below in the narrow case. */
    function Low(): Ratio
      requires f >= 1
    {
      if Narrow() then Binary(4 * f - 1, e - 2) else Binary(2 * f - 1, e - 1)
    }

    /** The values that read back as this one: the ends belong to it exactly when f is even. */
    predicate Inside(x: Ratio)
      requires f >= 1
    {
      if f % 2 == 0 then AtMost(Low(), x) && AtMost(x, High()) else Less(Low(), x) && Less(x, High())
    }
  }

  /** A value result / source with its distances to the two ends, in the same unit. */
  datatype Ends = Ends(result: nat, source: nat, up: nat, down: nat)

  /** `interval` (host/float.ts:31-45). */
  function Interval(p: FloatParts): (w: Ends)
    requires p.f >= 1
    ensures w.source > 0
    ensures w.result > w.down >= 1 && w.up >= 1
  {
    if p.e >= 0 then
      var scale := Pow(2, p.e);
      if p.Narrow() then
        MulMono(1, p.f, scale);
        Ends(p.f * scale * 4, 4, scale * 2, scale)
      else
        MulMono(1, p.f, scale);
        Ends(p.f * scale * 2, 2, scale, scale)
    else if p.Narrow() then
      Ends(p.f * 4, Pow(2, -p.e + 1) * 2, 2, 1)
    else
      Ends(p.f * 2, Pow(2, -p.e) * 2, 1, 1)
  }

  lemma SameMultiple(z: nat, x: nat, y: nat)
    requires z > 0 && y > 0
    ensures z * y > 0 && Same(Quotient(z * x, z * y), Quotient(x, y))
  {}

  /** `interval` over a common scale: t = 2^e above the point, d = 2^-e below it. */
  lemma IntervalForm(p: FloatParts)
    requires p.f >= 1
    ensures var t, d := Pow(2, Pos(p.e)), Pow(2, Neg(p.e));
            Interval(p) == if p.Narrow() then Ends(4 * (p.f * t), 4 * d, 2 * t, t) else Ends(2 * (p.f * t), 2 * d, t, t)
  {
    if p.e < 0 {
      assert Pow(2, -p.e + 1) == 2 * Pow(2, -p.e);
    }
  }

  lemma PartUnit(n: nat, e: int, i: nat, z: nat)
    requires z == Pow(2, i)
    ensures Same(Binary(n, e - i), Quotient(n * Pow(2, Pos(e)), z * Pow(2, Neg(e))))
  {
    hide Pow, Same;
    PowAdd(2, i, Neg(e));
    ScaleAs(n, 2, i + Neg(e), Pos(e));
  }

  lemma IntervalParts(f: int, t: int)
    ensures (4 * f - 1) * t == 4 * (f * t) - t
    ensures (2 * f - 1) * t == 2 * (f * t) - t
    ensures (2 * f + 1) * t == 2 * (f * t) + t
    ensures 2 * ((2 * f + 1) * t) == 4 * (f * t) + 2 * t
  {}

  lemma SmallTwos()
    ensures Pow(2, 1) == 2 && Pow(2, 2) == 4
  {}

  /** The ends of an interval whose lower gap is half the upper one, with x = f * t. */
  lemma NarrowMeaning(p: FloatParts, t: nat, d: nat, x: nat)
    requires p.f >= 1 && t == Pow(2, Pos(p.e)) && d == Pow(2, Neg(p.e)) && x == p.f * t && x >= t && d > 0
    requires p.Narrow()
    ensures Same(Quotient(4 * x, 4 * d), p.Value())
    ensures Same(Quotient(4 * x + 2 * t, 4 * d), p.High()) && Same(Quotient(4 * x - t, 4 * d), p.Low())
  {
    hide Pow, Same;
    SmallTwos();
    IntervalParts(p.f, t);
    SameMultiple(4, x, d);
    PartUnit(4 * p.f - 1, p.e, 2, 4);
    SameSymmetric(p.Low(), Quotient(4 * x - t, 4 * d));
    WideHigh(p, t, d, x);
    var high := Quotient(2 * x + t, 2 * d);
    SameMultiple(2, 2 * x + t, 2 * d);
    SameSymmetric(high, p.High());
    SameThrough(Quotient(4 * x + 2 * t, 4 * d), high, p.High());
  }

  lemma WideHigh(p: FloatParts, t: nat, d: nat, x: nat)
    requires p.f >= 1 && t == Pow(2, Pos(p.e)) && d == Pow(2, Neg(p.e)) && x == p.f * t && d > 0
    ensures Same(Quotient(2 * x + t, 2 * d), p.High())
  {
    hide Pow, Same;
    SmallTwos();
    IntervalParts(p.f, t);
    PartUnit(2 * p.f + 1, p.e, 1, 2);
    SameSymmetric(p.High(), Quotient(2 * x + t, 2 * d));
  }

  lemma WideMeaning(p: FloatParts, t: nat, d: nat, x: nat)
    requires p.f >= 1 && t == Pow(2, Pos(p.e)) && d == Pow(2, Neg(p.e)) && x == p.f * t && x >= t && d > 0
    requires !p.Narrow()
    ensures Same(Quotient(2 * x, 2 * d), p.Value())
    ensures Same(Quotient(2 * x + t, 2 * d), p.High()) && Same(Quotient(2 * x - t, 2 * d), p.Low())
  {
    hide Pow, Same;
    SmallTwos();
    IntervalParts(p.f, t);
    SameMultiple(2, x, d);
    WideHigh(p, t, d, x);
    PartUnit(2 * p.f - 1, p.e, 1, 2);
    SameSymmetric(p.Low(), Quotient(2 * x - t, 2 * d));
  }

  lemma SameThrough(x: Ratio, y: Ratio, z: Ratio)
    requires Same(x, y) && Same(y, z)
    ensures Same(x, z)
  {
    LessTrans(x, y, z);
    LessTrans(z, y, x);
  }

  /** The quotients of `interval` are the value and the two midpoints. */
  lemma IntervalMeaning(p: FloatParts)
    requires p.f >= 1
    ensures var w := Interval(p);
            && Same(Quotient(w.result, w.source), p.Value())
            && Same(Quotient(w.result + w.up, w.source), p.High())
            && Same(Quotient(w.result - w.down, w.source), p.Low())
  {
    hide Pow, Interval, Same;
    var t, d := Pow(2, Pos(p.e)), Pow(2, Neg(p.e));
    IntervalForm(p);
    MulMono(1, p.f, t);
    if p.Narrow() {
      NarrowMeaning(p, t, d, p.f * t);
    } else {
      WideMeaning(p, t, d, p.f * t);
    }
  }

  // ----- what `digits` promises -----

  /** k is the least exponent with the high end below 10^k, or at most 10^k when the ends are outside. */
  predicate LeastExponent(p: FloatParts, k: int) {
    if p.f % 2 == 0 then
      Less(p.High(), Decimal(1, k)) && AtMost(Decimal(1, k - 1), p.High())
    else
      AtMost(p.High(), Decimal(1, k)) && Less(Decimal(1, k - 1), p.High())
  }

  /** No multiple of 10^q lies in the interval. */
  ghost predicate NoneOnGrid(p: FloatParts, q: int)
    requires p.f >= 1
  {
    forall m: nat :: !p.Inside(Decimal(m, q))
  }

  /** No decimal of fewer than n digits, at any scale, lies in the interval. */
  ghost predicate NoneShorter(p: FloatParts, n: nat)
    requires p.f >= 1 && n >= 1
  {
    forall m: nat, j: int :: m < Pow(10, n - 1) ==> !p.Inside(Decimal(m, j))
  }

  /** No multiple of 10^q in the interval is closer to the value than d; on a tie d is even. */
  ghost predicate ClosestOnGrid(p: FloatParts, d: nat, q: int)
    requires p.f >= 1
  {
    forall m: nat :: p.Inside(Decimal(m, q)) ==>
      && Nearer(p.Value(), Decimal(d, q), Decimal(m, q))
      && (m != d && Nearer(p.Value(), Decimal(m, q), Decimal(d, q)) ==> d % 2 == 0)
  }

  ghost predicate IsShortest(p: FloatParts, ds: string, k: int)
    requires p.f >= 1
  {
    && ds != "" && AllDigits(ds) && ds[0] != '0'
    && LeastExponent(p, k)
    && p.Inside(Decimal(NatOf(ds), k - |ds|))
    && NoneShorter(p, |ds|)
    && ClosestOnGrid(p, NatOf(ds), k - |ds|)
  }

  predicate Between(closed: bool, lo: int, x: int, hi: int) {
    if closed then lo <= x <= hi else lo < x < hi
  }

  // The ends and the grid step, in the scaled integers the digit loop keeps.

  ghost function LowAt(p: FloatParts, a: nat): nat
    requires p.f >= 1
  {
    (Interval(p).result - Interval(p).down) * Pow(10, a)
  }

  ghost function HighAt(p: FloatParts, a: nat): nat
    requires p.f >= 1
  {
    (Interval(p).result + Interval(p).up) * Pow(10, a)
  }

  ghost function Step(p: FloatParts, b: nat): nat
    requires p.f >= 1
  {
    Interval(p).source * Pow(10, b)
  }

  /** The interval seen from the grid of multiples of 10^(b - a). */
  lemma GridInside(p: FloatParts, m: nat, a: nat, b: nat)
    requires p.f >= 1
    ensures p.Inside(Decimal(m, b - a)) <==> Between(p.f % 2 == 0, LowAt(p, a), m * Step(p, b), HighAt(p, a))
  {
    var w := Interval(p);
    IntervalMeaning(p);
    ScaleCompare(m, 10, a, b, w.result - w.down, w.source);
    ScaleCompare(m, 10, a, b, w.result + w.up, w.source);
    hide Pow, Interval, Same, Less, AtMost, Scale, FloatParts.Low, FloatParts.High;
    LessThrough(Decimal(m, b - a), Quotient(w.result - w.down, w.source), p.Low());
    LessThrough(Decimal(m, b - a), Quotient(w.result + w.up, w.source), p.High());
  }

  ghost function ValueAt(p: FloatParts, a: nat): nat
    requires p.f >= 1
  {
    Interval(p).result * Pow(10, a)
  }

  ghost function UpAt(p: FloatParts, a: nat): (u: nat)
    requires p.f >= 1
    ensures u >= 1
  {
    MulMono(1, Pow(10, a), Interval(p).up);
    Interval(p).up * Pow(10, a)
  }

  ghost function DownAt(p: FloatParts, a: nat): (d: nat)
    requires p.f >= 1
    ensures 1 <= d < ValueAt(p, a)
  {
    MulMono(1, Pow(10, a), Interval(p).down);
    MulStrict(Interval(p).down, Interval(p).result, Pow(10, a));
    Interval(p).down * Pow(10, a)
  }

  lemma EndsAt(p: FloatParts, a: nat)
    requires p.f >= 1
    ensures HighAt(p, a) == ValueAt(p, a) + UpAt(p, a)
    ensures LowAt(p, a) == ValueAt(p, a) - DownAt(p, a)
  {
    hide Pow, Interval;
    Spread(Interval(p).result, Interval(p).up, Pow(10, a));
    Spread(Interval(p).result, Interval(p).down, Pow(10, a));
  }

  lemma TenTimes(p: FloatParts, a: nat)
    requires p.f >= 1
    ensures ValueAt(p, a + 1) == 10 * ValueAt(p, a)
    ensures HighAt(p, a + 1) == 10 * HighAt(p, a)
    ensures UpAt(p, a + 1) == 10 * UpAt(p, a)
    ensures DownAt(p, a + 1) == 10 * DownAt(p, a)
    ensures Step(p, a + 1) == 10 * Step(p, a)
  {
    var w, t := Interval(p), Pow(10, a);
    assert Pow(10, a + 1) == 10 * t;
    hide Pow, Interval;
    Spread(w.result, w.source, t);
    Spread(w.result + w.up, w.source, t);
    Spread(w.up, w.source, t);
    Spread(w.down, w.source, t);
    Spread(w.source, w.source, t);
  }

  lemma ExponentAt(p: FloatParts, a: nat, b: nat)
    requires p.f >= 1
    ensures LeastExponent(p, b - a) <==>
            if p.f % 2 == 0 then HighAt(p, a) < Step(p, b) <= 10 * HighAt(p, a)
            else HighAt(p, a) <= Step(p, b) < 10 * HighAt(p, a)
  {
    var w := Interval(p);
    IntervalMeaning(p);
    TenTimes(p, a);
    assert b - (a + 1) == b - a - 1;
    ScaleCompare(1, 10, a, b, w.result + w.up, w.source);
    ScaleCompare(1, 10, a + 1, b, w.result + w.up, w.source);
    hide Pow, Interval, Same, Less, AtMost, Scale, FloatParts.High;
    LessThrough(Decimal(1, b - a), Quotient(w.result + w.up, w.source), p.High());
    LessThrough(Decimal(1, b - a - 1), Quotient(w.result + w.up, w.source), p.High());
  }

  lemma NearerAt(p: FloatParts, m: nat, n: nat, a: nat, b: nat)
    requires p.f >= 1
    ensures Nearer(p.Value(), Decimal(m, b - a), Decimal(n, b - a)) <==>
            Abs(m * Step(p, b) - ValueAt(p, a)) <= Abs(n * Step(p, b) - ValueAt(p, a))
  {
    var w := Interval(p);
    IntervalMeaning(p);
    hide Pow, Interval, Same, Scale, Nearer, Abs;
    NearerThrough(Quotient(w.result, w.source), p.Value(), Decimal(m, b - a), Decimal(n, b - a));
    NearerOnGrid(w.result, w.source, m, n, 10, a, b);
  }

  // ----- the loop of `digits` -----

  predicate Reaches(closed: bool, result: nat, up: nat, source: nat) {
    if closed then result + up >= source else result + up > source
  }

  predicate Fits(closed: bool, result: nat, up: nat, source: nat) {
    if closed then (result + up) * 10 < source else (result + up) * 10 <= source
  }

  predicate Low(closed: bool, rest: nat, down: nat) {
    if closed then rest <= down else rest < down
  }

  /** The digits so far are the floor of the value on their grid, and the rest is what they leave. */
  ghost predicate Floor(p: FloatParts, d: nat, rest: nat, a: nat, b: nat)
    requires p.f >= 1
  {
    && ValueAt(p, a) == d * Step(p, b) + rest
    && rest < Step(p, b)
  }

  lemma NothingOnGrid(p: FloatParts, d: nat, rest: nat, a: nat, b: nat)
    requires p.f >= 1 && Floor(p, d, rest, a, b)
    requires !Low(p.f % 2 == 0, rest, DownAt(p, a)) && !Reaches(p.f % 2 == 0, rest, UpAt(p, a), Step(p, b))
    ensures NoneOnGrid(p, b - a)
  {
    var s := Step(p, b);
    hide Step, ValueAt, UpAt, DownAt, HighAt, LowAt, FloatParts.Inside;
    EndsAt(p, a);
    var q := b - a;
    forall m: nat
      ensures !p.Inside(Decimal(m, q))
    {
      GridInside(p, m, a, b);
      if m <= d {
        MulMono(m, d, s);
      } else {
        MulMono(d + 1, m, s);
        assert (d + 1) * s == d * s + s;
      }
    }
  }

  /** The last digit, rounded the way the code rounds it. */
  function Final(d: nat, rest: nat, s: nat, low: bool, high: bool): nat {
    if low && high then (if rest * 2 > s || (rest * 2 == s && d % 2 == 1) then d + 1 else d)
    else if high then d + 1
    else d
  }

  lemma FinalInside(p: FloatParts, d: nat, rest: nat, a: nat, b: nat, low: bool, high: bool)
    requires p.f >= 1 && Floor(p, d, rest, a, b) && (low || high)
    requires low == Low(p.f % 2 == 0, rest, DownAt(p, a)) && high == Reaches(p.f % 2 == 0, rest, UpAt(p, a), Step(p, b))
    ensures p.Inside(Decimal(Final(d, rest, Step(p, b), low, high), b - a))
  {
    var s := Step(p, b);
    hide Step, ValueAt, UpAt, DownAt, HighAt, LowAt, FloatParts.Inside;
    EndsAt(p, a);
    assert (d + 1) * s == d * s + s;
    GridInside(p, Final(d, rest, s, low, high), a, b);
  }

  /** The rounded digit is the closest one inside, and even on a tie: the integers of FinalNearest. */
  lemma GridNearest(d: nat, rest: nat, s: nat, v: nat, up: nat, down: nat, closed: bool, low: bool, high: bool, m: nat)
    requires v == d * s + rest && rest < s && (low || high)
    requires low == Low(closed, rest, down) && high == Reaches(closed, rest, up, s)
    requires Between(closed, v - down, m * s, v + up)
    ensures var best := Final(d, rest, s, low, high);
            && Abs(best * s - v) <= Abs(m * s - v)
            && (m != best && Abs(m * s - v) <= Abs(best * s - v) ==> best % 2 == 0)
  {
    assert (d + 1) * s == d * s + s;
    if m < d {
      MulMono(m + 1, d, s);
      assert (m + 1) * s == m * s + s;
    } else if m > d + 1 {
      MulMono(d + 2, m, s);
      assert (d + 2) * s == d * s + s + s;
    }
  }

  lemma FinalNearest(p: FloatParts, d: nat, rest: nat, a: nat, b: nat, low: bool, high: bool, m: nat)
    requires p.f >= 1 && Floor(p, d, rest, a, b) && (low || high)
    requires low == Low(p.f % 2 == 0, rest, DownAt(p, a)) && high == Reaches(p.f % 2 == 0, rest, UpAt(p, a), Step(p, b))
    requires p.Inside(Decimal(m, b - a))
    ensures var best := Final(d, rest, Step(p, b), low, high);
            && Nearer(p.Value(), Decimal(best, b - a), Decimal(m, b - a))
            && (m != best && Nearer(p.Value(), Decimal(m, b - a), Decimal(best, b - a)) ==> best % 2 == 0)
  {
    hide Step, ValueAt, UpAt, DownAt, HighAt, LowAt, FloatParts.Inside, FloatParts.Value, Nearer, Final, Low, Reaches, Abs;
    var best := Final(d, rest, Step(p, b), low, high);
    EndsAt(p, a);
    GridInside(p, m, a, b);
    NearerAt(p, best, m, a, b);
    NearerAt(p, m, best, a, b);
    GridNearest(d, rest, Step(p, b), ValueAt(p, a), UpAt(p, a), DownAt(p, a), p.f % 2 == 0, low, high, m);
  }

  lemma FinalIsBest(p: FloatParts, d: nat, rest: nat, a: nat, b: nat, low: bool, high: bool)
    requires p.f >= 1 && Floor(p, d, rest, a, b) && (low || high)
    requires low == Low(p.f % 2 == 0, rest, DownAt(p, a)) && high == Reaches(p.f % 2 == 0, rest, UpAt(p, a), Step(p, b))
    ensures var best := Final(d, rest, Step(p, b), low, high);
            p.Inside(Decimal(best, b - a)) && ClosestOnGrid(p, best, b - a)
  {
    var q, best := b - a, Final(d, rest, Step(p, b), low, high);
    FinalInside(p, d, rest, a, b, low, high);
    hide Step, ValueAt, UpAt, DownAt, FloatParts.Inside, FloatParts.Value, Nearer, Final, Low, Reaches, Floor;
    forall m: nat | p.Inside(Decimal(m, q))
      ensures Nearer(p.Value(), Decimal(best, q), Decimal(m, q))
      ensures m != best && Nearer(p.Value(), Decimal(m, q), Decimal(best, q)) ==> best % 2 == 0
    {
      FinalNearest(p, d, rest, a, b, low, high, m);
    }
  }

  lemma InsideThrough(p: FloatParts, x: Ratio, y: Ratio)
    requires p.f >= 1 && Same(x, y)
    ensures p.Inside(x) <==> p.Inside(y)
  {
    LessThrough(p.Low(), x, y);
    LessThrough(p.High(), x, y);
  }

  /** The interval is convex, lies above zero, and reaches past 10^(k - 1). */
  lemma BelowLeading(p: FloatParts, x: Ratio, k: int)
    requires p.f >= 1 && LeastExponent(p, k)
    requires p.Inside(x) && Less(x, Decimal(1, k - 1))
    ensures p.Inside(Decimal(1, k - 1))
  {
    hide Less, AtMost, Same, Scale, FloatParts.Low, FloatParts.High;
    LessAtMost(p.Low(), x);
    LessAtMost(x, Decimal(1, k - 1));
    LessTrans(p.Low(), x, Decimal(1, k - 1));
  }

  lemma NotZero(p: FloatParts, j: int)
    requires p.f >= 1
    ensures !p.Inside(Decimal(0, j))
  {
    var l := if p.Narrow() then 4 * p.f - 1 else 2 * p.f - 1;
    var e := if p.Narrow() then p.e - 2 else p.e - 1;
    hide Pow;
    MulStrict(0, l, Pow(2, Pos(e)));
    MulStrict(0, p.Low().num, Pow(10, Neg(j)));
  }

  /** With nothing on the grid of n digits, no decimal of n digits lies in the interval at any scale. */
  lemma ShorterFromGrid(p: FloatParts, k: int, n: nat)
    requires p.f >= 1 && LeastExponent(p, k) && NoneOnGrid(p, k - n)
    ensures NoneShorter(p, n + 1)
  {
    forall m: nat, j: int | m < Pow(10, n)
      ensures !p.Inside(Decimal(m, j))
    {
      hide Pow, LeastExponent, FloatParts.Inside;
      if j >= k - n {
        ScaleRefine(m, 10, j, k - n);
        InsideThrough(p, Decimal(m, j), Decimal(m * Pow(10, j - (k - n)), k - n));
      } else if p.Inside(Decimal(m, j)) {
        BelowTop(m, j, n, k);
        BelowLeading(p, Decimal(m, j), k);
        if n == 0 {
          assert Pow(10, 0) == 1;
          NotZero(p, j);
        } else {
          ScaleRefine(1, 10, k - 1, k - n);
          InsideThrough(p, Decimal(1, k - 1), Decimal(1 * Pow(10, n - 1), k - n));
        }
      }
    }
  }

  lemma BelowTop(m: nat, j: int, n: nat, k: int)
    requires m < Pow(10, n) && j < k - n
    ensures Less(Decimal(m, j), Decimal(1, k - 1))
  {
    hide Pow, Less, Same, Scale;
    PowMono(10, n, k - 1 - j);
    ScaleRefine(1, 10, k - 1, j);
    ScaleOrder(m, 1 * Pow(10, k - 1 - j), 10, j);
    LessThrough(Decimal(m, j), Decimal(1, k - 1), Decimal(1 * Pow(10, k - 1 - j), j));
  }

  lemma Unscaled(p: FloatParts, j: nat)
    requires p.f >= 1
    ensures ValueAt(p, 0) == Interval(p).result && UpAt(p, 0) == Interval(p).up && DownAt(p, 0) == Interval(p).down
    ensures Step(p, 0) == Interval(p).source
    ensures Step(p, j) == Interval(p).source * Pow(10, j)
  {
    assert Pow(10, 0) == 1;
  }

  lemma NextDigit(d: nat, result: nat, s: nat, data: nat, rest: nat)
    requires result < s && result * 10 == data * s + rest
    ensures 10 * (d * s + result) == (10 * d + data) * s + rest
    ensures data <= 9
  {
    if data >= 10 {
      MulMono(10, data, s);
    }
    assert (10 * d + data) * s == 10 * (d * s) + data * s;
  }

  /** The state of the digit loop: `out`, then the remainder and the distances to the ends in its unit. */
  ghost predicate Running(p: FloatParts, a: nat, b: nat, out: string, result: nat, source: nat, up: nat, down: nat)
    requires p.f >= 1
  {
    && AllDigits(out) && source == Step(p, b)
    && up == UpAt(p, a + |out|) && down == DownAt(p, a + |out|)
    && Floor(p, NatOf(out), result, a + |out|, b)
  }

  lemma Advance(p: FloatParts, a: nat, b: nat, out: string, result: nat, source: nat, up: nat, down: nat, data: nat, rest: nat)
    requires p.f >= 1 && Running(p, a, b, out, result, source, up, down)
    requires !Low(p.f % 2 == 0, result, down) && !Reaches(p.f % 2 == 0, result, up, source)
    requires result * 10 == data * source + rest && rest < source
    ensures NoneOnGrid(p, b - a - |out|)
    ensures data <= 9 && Running(p, a, b, out + [DigitChar(data)], rest, source, up * 10, down * 10)
  {
    var t := a + |out|;
    NothingOnGrid(p, NatOf(out), result, t, b);
    TenTimes(p, t);
    hide Step, ValueAt, UpAt, DownAt, NoneOnGrid;
    NextDigit(NatOf(out), result, source, data, rest);
    NatOfSnoc(out, DigitChar(data));
    assert a + |out + [DigitChar(data)]| == t + 1;
  }

  lemma FinalDigit(d: nat, data: nat, rest: nat, s: nat, low: bool, high: bool)
    ensures Final(10 * d + data, rest, s, low, high) == 10 * d + Final(data, rest, s, low, high)
  {}

  /** The rounded last digit is a digit, because its carry would be a shorter decimal inside. */
  lemma Finish(p: FloatParts, a: nat, b: nat, out: string, data: nat, rest: nat, source: nat, up: nat, down: nat,
               low: bool, high: bool)
    requires p.f >= 1 && LeastExponent(p, b - a) && NoneOnGrid(p, b - a - |out|)
    requires data <= 9 && Running(p, a, b, out + [DigitChar(data)], rest, source, up, down)
    requires low == Low(p.f % 2 == 0, rest, down) && high == Reaches(p.f % 2 == 0, rest, up, source) && (low || high)
    ensures var last := Final(data, rest, source, low, high);
            last <= 9 && IsShortest(p, out + [DigitChar(last)], b - a)
  {
    var k, n, d := b - a, |out|, NatOf(out);
    var last := Final(data, rest, source, low, high);
    FinalDigit(d, data, rest, source, low, high);
    assert last <= 10;
    NatOfSnoc(out, DigitChar(data));
    hide LeastExponent, Step, ValueAt, UpAt, DownAt, NoneOnGrid, FloatParts.Inside, ClosestOnGrid, NoneShorter, Floor, Final;
    FinalIsBest(p, 10 * d + data, rest, a + n + 1, b, low, high);
    ShorterFromGrid(p, k, n);
    if last > 9 {
      CarryInside(p, d + 1, k - n);
    }
    NatOfSnoc(out, DigitChar(last));
    LeadingDigit(p, out + [DigitChar(last)], k);
  }

  lemma CarryInside(p: FloatParts, d: nat, q: int)
    requires p.f >= 1 && p.Inside(Decimal(10 * d, q - 1))
    ensures !NoneOnGrid(p, q)
  {
    assert Pow(10, 1) == 10;
    hide Pow, FloatParts.Inside;
    ScaleRefine(d, 10, q, q - 1);
    InsideThrough(p, Decimal(d, q), Decimal(d * Pow(10, 1), q - 1));
  }

  lemma LeadingDigit(p: FloatParts, ds: string, k: int)
    requires p.f >= 1 && ds != "" && AllDigits(ds)
    requires NoneShorter(p, |ds|) && p.Inside(Decimal(NatOf(ds), k - |ds|))
    ensures ds[0] != '0'
  {
    NatOfBound(ds);
  }

  /** `digits` (host/float.ts:91-143), from any estimate of k. */
  method Digits(p: FloatParts, estimate: int) returns (digits: string, k: int)
    requires p.f >= 1
    ensures IsShortest(p, digits, k)
  {
    var w := Interval(p);
    var result, source, up, down := w.result, w.source, w.up, w.down;
    var closed := p.f % 2 == 0;
    k := estimate;
    ghost var a: nat, b: nat := Neg(k), Pos(k);
    Unscaled(p, b);
    if k >= 0 {
      source := source * Pow(10, k);
    } else {
      var scale := Pow(10, -k);
      result := result * scale;
      up := up * scale;
      down := down * scale;
    }
    hide Interval, Pow, Step, ValueAt, UpAt, DownAt, HighAt, LowAt;
    while Reaches(closed, result, up, source)
      invariant k == b - a && source == Step(p, b) && source > 0
      invariant result == ValueAt(p, a) && up == UpAt(p, a) && down == DownAt(p, a)
      decreases result + up - source
    {
      TenTimes(p, b);
      source, k, b := source * 10, k + 1, b + 1;
    }
    while Fits(closed, result, up, source)
      invariant k == b - a && source == Step(p, b) && source > 0
      invariant result == ValueAt(p, a) && up == UpAt(p, a) && down == DownAt(p, a)
      invariant !Reaches(closed, result, up, source)
      decreases source - result - up
    {
      TenTimes(p, a);
      result, up, down, k, a := result * 10, up * 10, down * 10, k - 1, a + 1;
    }
    ExponentAt(p, a, b);
    EndsAt(p, a);
    digits := WriteDigits(p, k, result, source, up, down, a, b);
  }

  /** The digit loop (host/float.ts:119-142). */
  method WriteDigits(p: FloatParts, k: int, r: nat, source: nat, u: nat, v: nat, ghost a: nat, ghost b: nat) returns (out: string)
    requires p.f >= 1 && LeastExponent(p, k) && k == b - a
    requires Running(p, a, b, "", r, source, u, v)
    requires !Low(p.f % 2 == 0, r, v) && !Reaches(p.f % 2 == 0, r, u, source)
    ensures IsShortest(p, out, k)
  {
    var closed := p.f % 2 == 0;
    var result: nat, up: nat, down: nat := r, u, v;
    assert r < source && 1 <= v;
    hide Running, LeastExponent, IsShortest, NoneOnGrid;
    out := "";
    while true
      invariant Running(p, a, b, out, result, source, up, down) && result < source && 1 <= down
      invariant !Low(closed, result, down) && !Reaches(closed, result, up, source)
      decreases source - down
    {
      var data, rest := DivMod(result * 10, source);
      Advance(p, a, b, out, result, source, up, down, data, rest);
      result, up, down := rest, up * 10, down * 10;
      var low := Low(closed, result, down);
      var high := Reaches(closed, result, up, source);
      if !low && !high {
        out := out + [DigitChar(data)];
        continue;
      }
      Finish(p, a, b, out, data, result, source, up, down, low, high);
      if low && high {
        var twice := result * 2;
        if twice > source || (twice == source && data % 2 == 1) {
          data := data + 1;
        }
      } else if high {
        data := data + 1;
      }
      out := out + [DigitChar(data)];
      return;
    }
  }
}
