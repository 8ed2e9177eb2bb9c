/** The correctly rounded decimal reader: `parseExact` of host/float.ts. */
module FloatReader {
  import opened Powers
  import opened Rationals

  const HIDDEN: nat := 0x10_0000_0000_0000
  const MAX_UNIT: int := 971
  const MIN_UNIT: int := -1074

  /** A nonnegative binary64 value: m * 2^u, or infinity. */
  datatype Float64 = Finite(m: nat, u: int) | Infinity

  /** Each value has one such form: 53 significant bits, or fewer at the least exponent. */
  predicate Canonical(m: nat, u: int) {
    m < 2 * HIDDEN && MIN_UNIT <= u <= MAX_UNIT && (m >= HIDDEN || u == MIN_UNIT)
  }

  /** Half a unit past the largest finite value, from where results overflow. */
  function Threshold(): Ratio {
    Binary(4 * HIDDEN - 1, MAX_UNIT - 1)
  }

  /** roundTiesToEven, section 4.3.1 of IEEE 754-2019, of the exact value x. */
  ghost predicate Rounded(x: Ratio, r: Float64) {
    match r
    case Infinity => AtMost(Threshold(), x)
    case Finite(m, u) =>
      && Canonical(m, u)
      && Less(x, Threshold())
      && forall n: nat, w: int :: Canonical(n, w) ==>
           && Nearer(x, Binary(m, u), Binary(n, w))
           && ((n, w) != (m, u) && Nearer(x, Binary(n, w), Binary(m, u)) ==> m % 2 == 0)
  }

  // ----- scaled integers: multiples of 2^-c -----

  function At(m: nat, u: int, c: nat): nat
    requires u + c >= 0
  {
    m * Pow(2, u + c)
  }

  /** The distance from x to y * 2^-c, in units of 2^-c / x.den. */
  function Off(x: Ratio, y: nat, c: nat): nat {
    Abs(y * x.den - x.num * Pow(2, c))
  }

  lemma NearerScaled(x: Ratio, m: nat, u: int, n: nat, w: int, c: nat)
    requires u + c >= 0 && w + c >= 0
    ensures Nearer(x, Binary(m, u), Binary(n, w)) <==> Off(x, At(m, u, c), c) <= Off(x, At(n, w, c), c)
  {
    assert Pow(2, 0) == 1;
    hide Pow, Same, Nearer, Scale, Abs;
    var j: int := 0 - c;
    ScaleRefine(m, 2, u, j);
    ScaleRefine(n, 2, w, j);
    NearerPoints(x, Binary(m, u), Binary(At(m, u, c), j), Binary(n, w), Binary(At(n, w, c), j));
    NearerOnGrid(x.num, x.den, At(m, u, c), At(n, w, c), 2, c, 0);
  }

  lemma CompareScaled(x: Ratio, m: nat, u: int, c: nat)
    requires u + c >= 0
    ensures Less(x, Binary(m, u)) <==> x.num * Pow(2, c) < At(m, u, c) * x.den
    ensures AtMost(Binary(m, u), x) <==> At(m, u, c) * x.den <= x.num * Pow(2, c)
    ensures AtMost(x, Binary(m, u)) <==> x.num * Pow(2, c) <= At(m, u, c) * x.den
    ensures Less(Binary(m, u), x) <==> At(m, u, c) * x.den < x.num * Pow(2, c)
  {
    hide Pow, Less, AtMost, Scale;
    assert (u + c) - c == u;
    ScaleCompare(m, 2, c, u + c, x.num, x.den);
    ThreeProducts(m, x.den, Pow(2, u + c));
  }

  lemma PowTwo(n: nat)
    ensures Pow(2, n + 1) == 2 * Pow(2, n)
  {}

  lemma SmallTwos()
    ensures Pow(2, 4) == 16 && Pow(2, 5) == 32
  {}

  lemma PowHidden(n: nat)
    ensures Pow(2, n + 52) == HIDDEN * Pow(2, n)
  {
    hide Pow;
    SmallTwos();
    Product(2, 4, 4, 16, 16);
    Product(2, 8, 5, 256, 32);
    Product(2, 13, 13, 8192, 8192);
    Product(2, 26, 26, 0x400_0000, 0x400_0000);
    PowAdd(2, n, 52);
  }

  /** The gap above a float: the next one is at least a unit away. */
  lemma GapAbove(m: nat, u: int, n: nat, w: int, c: nat)
    requires Canonical(m, u) && Canonical(n, w) && c >= 1074
    ensures At(n, w, c) > At(m, u, c) ==> At(n, w, c) >= At(m, u, c) + Pow(2, u + c)
    ensures At(n, w, c) == At(m, u, c) ==> (n, w) == (m, u)
  {
    if w >= u {
      SameGrid(m, n, Pow(2, u + c), w - u, c + u);
      if w > u {
        LowerBinade(n, w, m, u, c);
      }
    } else {
      LowerBinade(m, u, n, w, c);
    }
  }

  /** A value with a smaller unit lies below one with a larger unit. */
  lemma LowerBinade(m: nat, u: int, n: nat, w: int, c: nat)
    requires Canonical(m, u) && Canonical(n, w) && w < u && c >= 1074
    ensures At(n, w, c) + Pow(2, w + c) <= HIDDEN * Pow(2, u + c) <= At(m, u, c)
  {
    var x, y := Pow(2, w + c), Pow(2, u + c);
    PowTwo(w + c);
    PowMono(2, w + c + 1, u + c);
    hide Pow;
    MulMono(n + 1, 2 * HIDDEN, x);
    assert (n + 1) * x == n * x + x;
    MulMono(HIDDEN, m, y);
  }

  lemma SameGrid(m: nat, n: nat, p: nat, i: nat, j: nat)
    requires p == Pow(2, j)
    ensures n * Pow(2, j + i) > m * p ==> n * Pow(2, j + i) >= m * p + p
    ensures i == 0 && n * Pow(2, j + i) == m * p ==> n == m
  {
    PowAdd(2, j, i);
    hide Pow;
    var z := n * Pow(2, i);
    assert n * (p * Pow(2, i)) == z * p by { ThreeProducts(n, p, Pow(2, i)); }
    MulStrict(m, z, p);
    if z > m {
      MulMono(m + 1, z, p);
      assert (m + 1) * p == m * p + p;
    }
  }

  // ----- rounding to a grid -----

  /** m is t rounded to an integer, ties to even. */
  predicate HalfEven(m: nat, t: Ratio) {
    && (2 * m - 1) * t.den <= 2 * t.num <= (2 * m + 1) * t.den
    && ((2 * m - 1) * t.den == 2 * t.num || 2 * t.num == (2 * m + 1) * t.den ==> m % 2 == 0)
  }

  lemma HalfEvenThrough(m: nat, t: Ratio, t': Ratio)
    requires Same(t, t')
    ensures HalfEven(m, t) <==> HalfEven(m, t')
  {
    DoubleCompare(2 * m + 1, t, t');
    DoubleCompare(2 * m - 1, t, t');
  }

  lemma DoubleCompare(n: int, t: Ratio, t': Ratio)
    requires Same(t, t')
    ensures n * t.den <= 2 * t.num <==> n * t'.den <= 2 * t'.num
    ensures n * t.den >= 2 * t.num <==> n * t'.den >= 2 * t'.num
  {
    Crossed(n, t.num, t.den, t'.num, t'.den);
    MulStrict(n * t.den, 2 * t.num, t'.den);
    MulStrict(n * t'.den, 2 * t'.num, t.den);
    MulStrict(2 * t.num, n * t.den, t'.den);
    MulStrict(2 * t'.num, n * t'.den, t.den);
  }

  lemma Crossed(n: int, a: nat, b: nat, a': nat, b': nat)
    requires a * b' == a' * b
    ensures n * b * b' == n * b' * b && 2 * a * b' == 2 * a' * b
  {
    Swap(n, b, b');
    Assoc(2, a, b');
    Assoc(2, a', b);
  }

  /** x in units of 2^u, over the common scale 2^-c. */
  function InUnits(x: Ratio, u: int, c: nat): Ratio
    requires u + c >= 0
  {
    hide Pow;
    MulStrict(0, x.den, Pow(2, u + c));
    Quotient(x.num * Pow(2, c), x.den * Pow(2, u + c))
  }

  /** Rounding to the grid of 2^u is nearest among its multiples, ties to even. */
  lemma GridNearest(x: Ratio, m: nat, u: int, c: nat, y: nat)
    requires u + c >= 0 && HalfEven(m, InUnits(x, u, c))
    requires y == At(m, u, c) || y >= At(m, u, c) + Pow(2, u + c) || y + Pow(2, u + c) <= At(m, u, c)
    ensures Off(x, At(m, u, c), c) <= Off(x, y, c)
    ensures y != At(m, u, c) && Off(x, y, c) <= Off(x, At(m, u, c), c) ==> m % 2 == 0
  {
    var p, n, d := Pow(2, u + c), x.num * Pow(2, c), x.den;
    hide Pow;
    var v := m * p;
    HalfUnits(m, d, p);
    Spread(v, p, d);
    if y >= v + p {
      MulMono(v + p, y, d);
    } else if y + p <= v {
      MulMono(y, v - p, d);
    }
  }

  lemma HalfUnits(m: nat, d: nat, p: nat)
    ensures (2 * m + 1) * (d * p) == 2 * (m * p * d) + p * d
    ensures (2 * m - 1) * (d * p) == 2 * (m * p * d) - p * d
  {
    var z := d * p;
    assert m * z == m * p * d;
  }

  /** What the rounding of x to the grid of 2^u is as a float: a carry to 2^53 moves to the next binade. */
  function FloatProduct(m: nat, u: int): Float64 {
    var r := if m == 2 * HIDDEN then (HIDDEN, u + 1) else (m, u);
    if r.1 > MAX_UNIT then Infinity else Finite(r.0, r.1)
  }

  /** The unit that suits x: 53 bits from its top bit, or the least unit. */
  predicate Suits(x: Ratio, u: int, c: nat)
    requires u + c >= 0
  {
    && u >= MIN_UNIT
    && x.num * Pow(2, c) < 2 * HIDDEN * (Pow(2, u + c) * x.den)
    && (u == MIN_UNIT || HIDDEN * (Pow(2, u + c) * x.den) <= x.num * Pow(2, c))
  }

  lemma SuitedRange(m: nat, t: Ratio)
    requires HalfEven(m, t)
    ensures t.num < 2 * HIDDEN * t.den ==> m <= 2 * HIDDEN
    ensures HIDDEN * t.den <= t.num ==> m >= HIDDEN
  {
    if m > 2 * HIDDEN {
      MulMono(4 * HIDDEN + 1, 2 * m - 1, t.den);
    } else if m < HIDDEN {
      MulMono(2 * m + 1, 2 * HIDDEN - 1, t.den);
    }
  }

  lemma SuitedCarry(m: nat, t: Ratio)
    requires HalfEven(m, t) && m <= 2 * HIDDEN
    ensures m == 2 * HIDDEN <==> (4 * HIDDEN - 1) * t.den <= 2 * t.num
  {
    if m < 2 * HIDDEN {
      MulStrict(2 * m + 1, 4 * HIDDEN - 1, t.den);
    }
  }

  lemma ScaledThreshold(x: Ratio, c: nat)
    requires c >= 1076
    ensures var p := Pow(2, 970 + c);
            && (Less(x, Threshold()) <==> x.num * Pow(2, c) < (4 * HIDDEN - 1) * (p * x.den))
            && (AtMost(Threshold(), x) <==> (4 * HIDDEN - 1) * (p * x.den) <= x.num * Pow(2, c))
  {
    hide Pow, Less, AtMost, Scale;
    CompareScaled(x, 4 * HIDDEN - 1, 970, c);
    Assoc(4 * HIDDEN - 1, Pow(2, 970 + c), x.den);
  }

  /** The threshold seen from the unit u, where q is the unit half as large as the largest. */
  lemma UnitAgainstMax(u: int, c: nat, d: nat)
    requires u + c >= 0 && c >= 1076
    ensures var p, q := Pow(2, u + c), Pow(2, 970 + c);
            && (u > 971 ==> p * d >= 4 * (q * d))
            && (u == 971 ==> p * d == 2 * (q * d))
            && (u < 971 ==> p * d <= q * d)
  {
    var p, q := Pow(2, u + c), Pow(2, 970 + c);
    PowTwo(970 + c);
    PowTwo(971 + c);
    if u > 971 {
      PowMono(2, 972 + c, u + c);
    } else if u < 971 {
      PowMono(2, u + c, 970 + c);
    }
    hide Pow;
    Assoc(4, q, d);
    Assoc(2, q, d);
    if u > 971 {
      MulMono(4 * q, p, d);
    } else if u < 971 {
      MulMono(p, q, d);
    }
  }

  lemma Overflows(x: Ratio, u: int, m: nat, c: nat)
    requires c >= 1076 && u >= MIN_UNIT && Suits(x, u, c) && HalfEven(m, InUnits(x, u, c))
    ensures FloatProduct(m, u) == Infinity <==> AtMost(Threshold(), x)
    ensures m <= 2 * HIDDEN && (u > MIN_UNIT ==> m >= HIDDEN)
  {
    var t := InUnits(x, u, c);
    assert t.den == Pow(2, u + c) * x.den;
    assert 0 < t.den;
    ScaledThreshold(x, c);
    UnitAgainstMax(u, c, x.den);
    hide Pow, Less, AtMost, Threshold, InUnits, HalfEven;
    SuitedRange(m, t);
    SuitedCarry(m, t);
  }

  /** Rounding to the suited unit is rounding to binary64. */
  lemma RoundedAtUnit(x: Ratio, u: int, m: nat, c: nat)
    requires c >= 1076 && u >= MIN_UNIT && Suits(x, u, c) && HalfEven(m, InUnits(x, u, c))
    ensures Rounded(x, FloatProduct(m, u))
  {
    Overflows(x, u, m, c);
    LessAtMost(x, Threshold());
    if FloatProduct(m, u).Finite? {
      var Finite(m', u') := FloatProduct(m, u);
      forall n: nat, w: int | Canonical(n, w)
        ensures Nearer(x, Binary(m', u'), Binary(n, w))
        ensures (n, w) != (m', u') && Nearer(x, Binary(n, w), Binary(m', u')) ==> m' % 2 == 0
      {
        hide Pow, Nearer, HalfEven, Suits, Less, AtMost;
        CarryAt(m, u, c);
        NearerScaled(x, m', u', n, w, c);
        NearerScaled(x, n, w, m', u', c);
        GapAbove(m', u', n, w, c);
        AnyFloatFarther(x, u, m, c, n, w);
      }
    }
  }

  lemma CarryAt(m: nat, u: int, c: nat)
    requires u + c >= 0 && m <= 2 * HIDDEN && FloatProduct(m, u).Finite?
    ensures var r := FloatProduct(m, u); r.u + c >= 0 && At(r.m, r.u, c) == At(m, u, c)
  {
    PowTwo(u + c);
  }

  lemma FartherBelow(x: Ratio, y: nat, t: nat, c: nat)
    requires y < t && t * x.den <= x.num * Pow(2, c)
    ensures Off(x, t, c) < Off(x, y, c)
  {
    hide Pow;
    MulStrict(y, t, x.den);
  }

  lemma AnyFloatFarther(x: Ratio, u: int, m: nat, c: nat, n: nat, w: int)
    requires c >= 1076 && u >= MIN_UNIT && Suits(x, u, c) && HalfEven(m, InUnits(x, u, c))
    requires Canonical(n, w)
    ensures Off(x, At(m, u, c), c) <= Off(x, At(n, w, c), c)
    ensures At(n, w, c) != At(m, u, c) && Off(x, At(n, w, c), c) <= Off(x, At(m, u, c), c) ==> m % 2 == 0
  {
    var p, y := Pow(2, u + c), At(n, w, c);
    if w >= u {
      OnGrid(m, n, p, w - u, u + c);
      hide Pow, HalfEven, InUnits, Off;
      GridNearest(x, m, u, c, y);
    } else {
      var t := At(HIDDEN, u, c);
      BelowBinade(n, w, u, c);
      OnGrid(m, HIDDEN, p, 0, u + c);
      Assoc(HIDDEN, p, x.den);
      hide Pow, HalfEven, InUnits, Off;
      GridNearest(x, m, u, c, t);
      FartherBelow(x, y, t, c);
    }
  }

  lemma Multiples(m: nat, z: nat, p: nat)
    ensures z * p == m * p || z * p >= m * p + p || z * p + p <= m * p
  {
    if z > m {
      MulMono(m + 1, z, p);
      assert (m + 1) * p == m * p + p;
    } else if z < m {
      MulMono(z + 1, m, p);
      assert (z + 1) * p == z * p + p;
    }
  }

  lemma OnGrid(m: nat, n: nat, p: nat, i: nat, j: nat)
    requires p == Pow(2, j)
    ensures var y := n * Pow(2, j + i); y == m * p || y >= m * p + p || y + p <= m * p
  {
    PowAdd(2, j, i);
    hide Pow;
    ThreeProducts(n, p, Pow(2, i));
    Multiples(m, n * Pow(2, i), p);
  }

  lemma BelowBinade(n: nat, w: int, u: int, c: nat)
    requires Canonical(n, w) && w < u && c >= 1076
    ensures At(n, w, c) < At(HIDDEN, u, c)
  {
    var x, y := Pow(2, w + c), Pow(2, u + c);
    PowTwo(w + c);
    PowMono(2, w + c + 1, u + c);
    hide Pow;
    MulMono(n + 1, 2 * HIDDEN, x);
    assert (n + 1) * x == n * x + x;
  }

  // ----- the computation of `parseExact` -----

  /** The number of binary digits; none for zero. */
  function BitLength(n: nat): (r: nat)
    ensures n == 0 <==> r == 0
    ensures n > 0 ==> Pow(2, r - 1) <= n < Pow(2, r)
  {
    if n == 0 then 0 else 1 + BitLength(n / 2)
  }

  function Max(x: int, y: int): int {
    if x >= y then x else y
  }

  /** Numerators of 54 + i bits over denominators of i bits. */
  lemma QuotientBits(n: nat, d: nat, i: nat, q: nat, rest: nat)
    requires i >= 1 && DividedAs(n, d, q, rest)
    requires Pow(2, i + 53) <= n && d < Pow(2, i)
    ensures BitLength(q) >= 54
  {
    PowHidden(i);
    PowTwo(i + 52);
    PowHidden(0);
    PowTwo(52);
    assert Pow(2, 53) == 2 * HIDDEN;
    BitsFrom(q, 53);
    hide Pow, BitLength;
    assert (q + 1) * d == q * d + d;
    MulStrict(2 * HIDDEN, q + 1, d);
  }

  lemma BitsFrom(q: nat, b: nat)
    ensures Pow(2, b) <= q ==> BitLength(q) > b
  {
    if BitLength(q) <= b {
      PowMono(2, BitLength(q), b);
    }
  }

  lemma ShiftBounds(n: nat, b: nat, s: nat)
    requires b >= 1 && Pow(2, b - 1) <= n < Pow(2, b)
    ensures Pow(2, b - 1 + s) <= n * Pow(2, s) < Pow(2, b + s)
  {
    PowAdd(2, b - 1, s);
    PowAdd(2, b, s);
    hide Pow;
    MulMono(Pow(2, b - 1), n, Pow(2, s));
    MulStrict(n, Pow(2, b), Pow(2, s));
  }

  /** BigInt `<<`. */
  function Shl(n: nat, s: nat): nat {
    n * Pow(2, s)
  }

  /** num / den times 2^shift, as a quotient of naturals. */
  predicate ScaledBy(num: nat, den: nat, shift: int, top: nat, bottom: nat) {
    top == num * Pow(2, Pos(shift)) && bottom == den * Pow(2, Neg(shift)) && bottom > 0
  }

  lemma ScaledPositive(num: nat, den: nat, shift: int, top: nat, bottom: nat)
    ensures ScaledBy(num, den, shift, top, bottom) ==> bottom > 0
  {}

  lemma ScalingSteps(num: nat, den: nat, shift: int)
    requires den > 0
    ensures shift >= 0 ==> ScaledBy(num, den, shift, Shl(num, shift), den)
    ensures shift < 0 ==> ScaledBy(num, den, shift, num, Shl(den, -shift))
  {
    assert Pow(2, 0) == 1;
    hide Pow;
    MulStrict(0, den, Pow(2, Neg(shift)));
  }

  /** Scaling by `shift` leaves a quotient of at least 54 bits. */
  lemma ScaledBits(num: nat, den: nat, shift: int, top: nat, bottom: nat, q: nat, rest: nat)
    requires num > 0 && den > 0 && shift == 54 - (BitLength(num) - BitLength(den))
    requires ScaledBy(num, den, shift, top, bottom)
    requires DividedAs(top, bottom, q, rest)
    ensures BitLength(q) >= 54
  {
    var bn, bd := BitLength(num), BitLength(den);
    hide Pow, DividedAs;
    ShiftBounds(num, bn, Pos(shift));
    ShiftBounds(den, bd, Neg(shift));
    QuotientBits(top, bottom, bd + Neg(shift), q, rest);
  }

  /** The quotient and remainder decide the rounding of a ratio. */
  lemma HalfEvenFrom(m: nat, r: nat, t: Ratio)
    requires DividedAs(t.num, t.den, m, r)
    ensures HalfEven(if 2 * r > t.den || (2 * r == t.den && m % 2 == 1) then m + 1 else m, t)
  {
    var d := t.den;
    assert (2 * m + 3) * d == 2 * (m * d) + 3 * d;
    assert (2 * m + 1) * d == 2 * (m * d) + d;
    assert (2 * m - 1) * d == 2 * (m * d) - d;
  }

  lemma TailSplits(q: nat, rest: nat, d: nat, p: nat, m: nat, low: nat)
    requires DividedAs(q, p, m, low)
    ensures q * d + rest == m * (d * p) + (low * d + rest)
  {
    Spread(m * p, low, d);
    ThreeProducts(m, d, p);
  }

  lemma RowBelow(low: nat, n: nat, d: nat, rest: nat)
    requires low < n && rest < d
    ensures low * d + rest < n * d
  {
    MulMono(low + 1, n, d);
    Spread(low, 1, d);
  }

  lemma TailCompares(low: nat, half: nat, d: nat, rest: nat)
    requires rest < d
    ensures low > half ==> 2 * (low * d + rest) > 2 * (half * d)
    ensures low < half ==> 2 * (low * d + rest) < 2 * (half * d)
    ensures low < 2 * half ==> low * d + rest < 2 * (half * d)
  {
    if low > half {
      RowBelow(half, low, d, 0);
    } else if low < half {
      RowBelow(low, half, d, rest);
    }
    if low < 2 * half {
      RowBelow(low, 2 * half, d, rest);
      HalfOf(d, half);
    }
  }

  lemma HalfOf(d: nat, half: nat)
    ensures d * (2 * half) == 2 * (half * d)
  {}

  /** A tail of `drop` bits with a sticky remainder compares with half like the whole remainder does. */
  lemma StickyTail(q: nat, rest: nat, d: nat, p: nat, half: nat, m: nat, low: nat, top: nat)
    requires DividedAs(top, d, q, rest) && DividedAs(q, p, m, low) && p == 2 * half && half >= 1
    ensures DividedAs(top, d * p, m, low * d + rest)
    ensures low > half ==> 2 * (low * d + rest) > d * p
    ensures low < half ==> 2 * (low * d + rest) < d * p
    ensures low == half ==> 2 * (low * d + rest) == d * p + 2 * rest
  {
    HalfOf(d, half);
    TailSplits(q, rest, d, p, m, low);
    TailCompares(low, half, d, rest);
  }

  lemma StickyRounds(q: nat, rest: nat, d: nat, p: nat, half: nat, m: nat, low: nat, top: nat)
    requires DividedAs(top, d, q, rest) && DividedAs(q, p, m, low) && p == 2 * half && half >= 1
    ensures d * p > 0
    ensures HalfEven(RoundedUp(m, low, half, rest), Quotient(top, d * p))
  {
    StickyTail(q, rest, d, p, half, m, low, top);
    assert d * p > 0;
    hide DividedAs, HalfEven;
    HalfEvenFrom(m, low * d + rest, Quotient(top, d * p));
  }

  /** The scaled quotient top / (bottom * 2^drop) is num / den in units of 2^u, with u = drop - shift. */
  lemma ScaledQuotient(num: nat, den: nat, shift: int, drop: nat, top: nat, bottom: nat, c: nat)
    requires den > 0 && bottom > 0 && drop - shift + c >= 0
    requires top == num * Pow(2, Pos(shift)) && bottom == den * Pow(2, Neg(shift))
    ensures bottom * Pow(2, drop) > 0
    ensures Same(Quotient(top, bottom * Pow(2, drop)), InUnits(Quotient(num, den), drop - shift, c))
  {
    var i, j := Pos(shift), Neg(shift) + drop;
    PowAdd(2, Neg(shift), drop);
    PowBalance(2, i, drop - shift + c, c, j);
    hide Pow;
    Assoc(den, Pow(2, Neg(shift)), Pow(2, drop));
    CrossUnits(num, den, Pow(2, i), Pow(2, drop - shift + c), Pow(2, c), Pow(2, j));
    MulStrict(0, den, Pow(2, j));
  }

  lemma CrossUnits(n: nat, d: nat, i: nat, k: nat, c: nat, j: nat)
    requires Balanced(i, k, c, j)
    ensures (n * i) * (d * k) == (n * c) * (d * j)
  {
    var z := i * k;
    assert (n * i) * (d * k) == (n * d) * z;
    assert (n * c) * (d * j) == (n * d) * (c * j);
  }

  lemma BoundedThrough(t: Ratio, t': Ratio, k: nat)
    requires Same(t, t')
    ensures t.num < k * t.den <==> t'.num < k * t'.den
  {
    LessThrough(Quotient(k, 1), t, t');
  }

  lemma SuitsUnits(x: Ratio, u: int, c: nat)
    requires u + c >= 0
    ensures Suits(x, u, c) <==>
            var t := InUnits(x, u, c);
            u >= MIN_UNIT && t.num < 2 * HIDDEN * t.den && (u == MIN_UNIT || !(t.num < HIDDEN * t.den))
  {
    hide Pow;
  }

  /** The bits of the quotient choose the unit. */
  lemma QuotientSuits(q: nat, rest: nat, bottom: nat, bits: nat, drop: nat)
    requires rest < bottom && bits == BitLength(q) && drop >= bits - 53 >= 1
    ensures var t := q * bottom + rest;
            t < 2 * HIDDEN * (bottom * Pow(2, drop)) && (drop == bits - 53 ==> t >= HIDDEN * (bottom * Pow(2, drop)))
  {
    var p := Pow(2, drop);
    PowHidden(bits - 53);
    PowTwo(bits - 1);
    PowMono(2, bits - 53, drop);
    hide Pow;
    assert q + 1 <= 2 * HIDDEN * p;
    MulMono(q + 1, 2 * HIDDEN * p, bottom);
    Assoc(2 * HIDDEN, p, bottom);
    Assoc(HIDDEN, p, bottom);
    assert (q + 1) * bottom == q * bottom + bottom;
    assert p * bottom == bottom * p;
    if drop == bits - 53 {
      MulMono(HIDDEN * p, q, bottom);
    }
  }

  lemma QuotientRounds(num: nat, den: nat, shift: int, drop: nat, top: nat, bottom: nat, q: nat, rest: nat, m: nat)
    requires den > 0 && ScaledBy(num, den, shift, top, bottom)
    requires DividedAs(top, bottom, q, rest) && BitLength(q) >= 54
    requires drop == shift + Max(BitLength(q) - 1 - shift - 52, MIN_UNIT)
    requires bottom * Pow(2, drop) > 0 && HalfEven(m, Quotient(top, bottom * Pow(2, drop)))
    ensures Rounded(Quotient(num, den), FloatProduct(m, drop - shift))
  {
    var x, u := Quotient(num, den), drop - shift;
    var c: nat :| c >= 1076;
    ScaledQuotient(num, den, shift, drop, top, bottom, c);
    QuotientSuits(q, rest, bottom, BitLength(q), drop);
    hide Pow, HalfEven, InUnits, Suits, Rounded, Same;
    var t := Quotient(top, bottom * Pow(2, drop));
    SuitsUnits(x, u, c);
    BoundedThrough(t, InUnits(x, u, c), 2 * HIDDEN);
    BoundedThrough(t, InUnits(x, u, c), HIDDEN);
    HalfEvenThrough(m, t, InUnits(x, u, c));
    RoundedAtUnit(x, u, m, c);
  }

  function RoundedUp(m: nat, low: nat, half: nat, rest: nat): nat {
    if low > half || (low == half && (rest > 0 || m % 2 == 1)) then m + 1 else m
  }

  /** The steps of `parseExact` after scaling, put together. */
  lemma StepsRound(num: nat, den: nat, shift: int, drop: nat, top: nat, bottom: nat, q: nat, rest: nat, m: nat, low: nat, half: nat)
    requires den > 0 && ScaledBy(num, den, shift, top, bottom)
    requires DividedAs(top, bottom, q, rest) && BitLength(q) >= 54
    requires drop == shift + Max(BitLength(q) - 1 - shift - 52, MIN_UNIT)
    requires DividedAs(q, Pow(2, drop), m, low) && half == Pow(2, drop - 1)
    ensures Rounded(Quotient(num, den), FloatProduct(RoundedUp(m, low, half, rest), drop - shift))
  {
    PowTwo(drop - 1);
    hide Pow, DividedAs, HalfEven, Rounded, BitLength, ScaledBy;
    assert bottom > 0 by { ScaledPositive(num, den, shift, top, bottom); }
    StickyRounds(q, rest, bottom, Pow(2, drop), half, m, low, top);
    QuotientRounds(num, den, shift, drop, top, bottom, q, rest, RoundedUp(m, low, half, rest));
  }

  /** The exact rational rounded to the width of the result (host/float.ts:272-296). */
  method RoundQuotient(numerator: nat, denominator: nat) returns (r: Float64)
    requires numerator > 0 && denominator > 0
    ensures Rounded(Quotient(numerator, denominator), r)
  {
    hide Pow, DividedAs, Rounded, BitLength, ScaledBy, Shl;
    var num, den := numerator, denominator;
    var shift := 54 - (BitLength(num) - BitLength(den));
    ScalingSteps(num, den, shift);
    if shift >= 0 {
      num := Shl(num, shift);
    } else {
      den := Shl(den, -shift);
    }
    ScaledPositive(numerator, denominator, shift, num, den);
    var queue, rest := DivMod(num, den);
    ScaledBits(numerator, denominator, shift, num, den, queue, rest);
    var top := BitLength(queue) - 1 - shift;
    var unit := Max(top - 52, MIN_UNIT);
    var drop := unit + shift;
    var significand, low := DivMod(queue, Pow(2, drop));
    var half := Pow(2, drop - 1);
    StepsRound(numerator, denominator, shift, drop, num, den, queue, rest, significand, low, half);
    if low > half || (low == half && (rest > 0 || significand % 2 == 1)) {
      significand := significand + 1;
    }
    r := FloatProduct(significand, unit);
  }

  // ----- the early cut-offs -----

  lemma TenTo22()
    ensures Pow(10, 22) >= Pow(2, 73)
  {
    assert Pow(10, 11) == 100000000000;
    PowAdd(10, 11, 11);
    assert Pow(2, 12) == 4096;
    PowAdd(2, 12, 12);
    PowAdd(2, 24, 24);
    PowAdd(2, 24, 1);
    PowAdd(2, 48, 25);
  }

  lemma {:induction false} EightPerTen(r: nat)
    ensures Pow(10, r) >= Pow(2, 3 * r)
  {
    if r > 0 {
      EightPerTen(r - 1);
      PowTwo(3 * r - 1);
      PowTwo(3 * r - 2);
      PowTwo(3 * r - 3);
    }
  }

  lemma GrowBoth(a: nat, i: nat, b: nat, j: nat)
    requires Pow(10, a) >= Pow(2, b) && Pow(10, i) >= Pow(2, j)
    ensures Pow(10, a + i) >= Pow(2, b + j)
  {
    PowAdd(10, a, i);
    PowAdd(2, b, j);
    hide Pow;
    MulMono(Pow(2, b), Pow(10, a), Pow(10, i));
    MulMono(Pow(2, j), Pow(10, i), Pow(2, b));
  }

  lemma Grow22(i: nat, j: nat)
    requires Pow(10, i) >= Pow(2, j)
    ensures Pow(10, i + 22) >= Pow(2, j + 73)
  {
    TenTo22();
    hide Pow;
    GrowBoth(22, i, 73, j);
  }

  lemma {:induction false} PowersGrow(t: nat, r: nat)
    ensures Pow(10, 22 * t + r) >= Pow(2, 73 * t + 3 * r)
  {
    if t == 0 {
      EightPerTen(r);
    } else {
      PowersGrow(t - 1, r);
      hide Pow;
      Grow22(22 * (t - 1) + r, 73 * (t - 1) + 3 * r);
    }
  }

  lemma PowersGrowAt(t: nat, r: nat, i: nat, j: nat)
    requires i >= 22 * t + r && j <= 73 * t + 3 * r
    ensures Pow(10, i) >= Pow(2, j)
  {
    PowersGrow(t, r);
    PowMono(10, 22 * t + r, i);
    PowMono(2, j, 73 * t + 3 * r);
  }

  lemma LargeOverflows(x: Ratio, i: nat)
    requires i >= 310 && AtMost(Decimal(1, i), x)
    ensures AtMost(Threshold(), x)
  {
    var c: nat, j: nat :| c >= 1076 && 1024 <= j <= 1028;
    var y := Decimal(1, i);
    assert y == Quotient(Pow(10, i), 1) by { assert Pow(10, 0) == 1; }
    PowersGrowAt(14, 2, i, j);
    ScaledThreshold(y, c);
    PowHidden(970 + c);
    PowTwo(1022 + c);
    PowTwo(1023 + c);
    PowMono(2, 1024 + c, j + c);
    PowAdd(2, j, c);
    hide Pow, AtMost, Threshold;
    MulMono(Pow(2, j), Pow(10, i), Pow(2, c));
    LessTrans(Threshold(), y, x);
  }

  /** x is at most half the least unit. */
  lemma SmallScaled(x: Ratio, i: nat, c: nat)
    requires i >= 331 && Less(x, Decimal(1, 0 - i)) && c >= 1098
    ensures 2 * (x.num * Pow(2, c)) <= Pow(2, c - 1074) * x.den
  {
    var j: nat :| 1075 <= j <= 1098;
    PowersGrowAt(15, 1, i, j);
    TinyPowers(i, j);
    hide Pow, Less, AtMost, Scale;
    LessAtMost(x, Decimal(1, 0 - i));
    LessTrans(x, Decimal(1, 0 - i), Binary(1, 0 - j));
    CompareScaled(x, 1, 0 - j, c);
    PowTwo(c - j);
    PowMono(2, c - j + 1, c - 1074);
    MulMono(2 * Pow(2, c - j), Pow(2, c - 1074), x.den);
    Assoc(2, Pow(2, c - j), x.den);
  }

  lemma SmallVanishes(x: Ratio, i: nat)
    requires i >= 331 && Less(x, Decimal(1, 0 - i))
    ensures Rounded(x, Finite(0, MIN_UNIT))
  {
    var c: nat :| c >= 1098;
    SmallScaled(x, i, c);
    hide Pow, Less, Rounded, Scale;
    MulStrict(0, Pow(2, c - 1074), x.den);
    RoundedAtUnit(x, MIN_UNIT, 0, c);
  }

  lemma TinyPowers(i: nat, j: nat)
    requires Pow(10, i) >= Pow(2, j)
    ensures AtMost(Decimal(1, 0 - i), Binary(1, 0 - j))
  {
    assert Decimal(1, 0 - i) == Quotient(1, Pow(10, i));
    assert Binary(1, 0 - j) == Quotient(1, Pow(2, j));
    hide Pow, Scale;
  }

  /** A digit string without leading zero writes a number in the decade of its length. */
  lemma Decade(digits: string, exponent: int)
    requires digits != "" && AllDigits(digits) && digits[0] != '0'
    ensures AtMost(Decimal(1, |digits| - 1 + exponent), Decimal(NatOf(digits), exponent))
    ensures Less(Decimal(NatOf(digits), exponent), Decimal(1, |digits| + exponent))
  {
    hide Pow, Scale, Less, AtMost, Same, NatOf, AllDigits;
    var n, d := |digits|, NatOf(digits);
    NatOfBound(digits);
    LeadingBound(digits);
    ScaleRefine(1, 10, n - 1 + exponent, exponent);
    ScaleRefine(1, 10, n + exponent, exponent);
    assert n - 1 + exponent - exponent == n - 1 && n + exponent - exponent == n;
    LessThrough(Decimal(d, exponent), Decimal(1, n - 1 + exponent), Decimal(1 * Pow(10, n - 1), exponent));
    LessThrough(Decimal(d, exponent), Decimal(1, n + exponent), Decimal(1 * Pow(10, n), exponent));
    ScaleOrder(Pow(10, n - 1), d, 10, exponent);
    ScaleOrder(d, Pow(10, n), 10, exponent);
  }

  lemma {:induction false} LeadingBound(s: string)
    requires s != "" && AllDigits(s) && s[0] != '0'
    ensures NatOf(s) >= Pow(10, |s| - 1)
  {
    if |s| == 1 {
      assert NatOf(s[..0]) == 0;
    } else {
      LeadingBound(s[..|s| - 1]);
    }
  }

  /** `parseExact` (host/float.ts:254-297). */
  method ParseExact(digits: string, exponent: int) returns (r: Float64)
    requires digits != "" && AllDigits(digits) && digits[0] != '0'
    ensures Rounded(Decimal(NatOf(digits), exponent), r)
  {
    Decade(digits, exponent);
    LeadingBound(digits);
    assert Pow(10, 0) == 1;
    hide Pow, Rounded, Less, AtMost;
    var magnitude := |digits| + exponent;
    if magnitude > 310 {
      LargeOverflows(Decimal(NatOf(digits), exponent), magnitude - 1);
      return Infinity;
    }
    if magnitude < -330 {
      SmallVanishes(Decimal(NatOf(digits), exponent), 0 - magnitude);
      return Finite(0, MIN_UNIT);
    }
    var bigInt := NatOf(digits);
    var num, den := bigInt, 1;
    if exponent >= 0 {
      num := bigInt * Pow(10, exponent);
    } else {
      den := Pow(10, -exponent);
    }
    MulStrict(0, bigInt, Pow(10, Pos(exponent)));
    r := RoundQuotient(num, den);
  }
}
