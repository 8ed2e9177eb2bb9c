/** Exact nonnegative rationals and decimal digit strings: the vocabulary of the float text code. */
module Rationals {
  import opened Powers

  lemma MulStrict(x: int, y: int, c: nat)
    requires c > 0
    ensures x < y <==> x * c < y * c
    ensures x <= y <==> x * c <= y * c
    ensures x == y <==> x * c == y * c
  {}

  /** An exact quotient; the denominator is never zero. */
  datatype Quotient = Quotient(num: nat, den: nat)
  type Ratio = q: Quotient | q.den > 0 witness Quotient(0, 1)

  predicate Less(x: Ratio, y: Ratio) {
    x.num * y.den < y.num * x.den
  }

  predicate AtMost(x: Ratio, y: Ratio) {
    x.num * y.den <= y.num * x.den
  }

  predicate Same(x: Ratio, y: Ratio) {
    x.num * y.den == y.num * x.den
  }

  function Pos(j: int): nat {
    if j >= 0 then j else 0
  }

  function Neg(j: int): nat {
    if j >= 0 then 0 else -j
  }

  lemma LessAtMost(x: Ratio, y: Ratio)
    ensures Less(x, y) ==> AtMost(x, y)
    ensures Less(x, y) <==> !AtMost(y, x)
  {}

  predicate DividedAs(x: nat, s: nat, q: nat, r: nat) {
    x == q * s + r && r < s
  }

  /** BigInt `/` and `%` on nonnegative operands. */
  method DivMod(x: nat, s: nat) returns (q: nat, r: nat)
    requires s > 0
    ensures DividedAs(x, s, q, r)
  {
    q, r := x / s, x % s;
  }

  /** n * base^j for any integer j. */
  function Scale(n: nat, base: nat, j: int): (q: Ratio)
    requires base > 0
  {
    Quotient(n * Pow(base, Pos(j)), Pow(base, Neg(j)))
  }

  function Decimal(n: nat, j: int): Ratio {
    Scale(n, 10, j)
  }

  function Binary(f: nat, e: int): Ratio {
    Scale(f, 2, e)
  }

  /** Cross products may be compared through any equal quotient. */
  lemma LessThrough(x: Ratio, y: Ratio, z: Ratio)
    requires Same(y, z)
    ensures Less(x, y) <==> Less(x, z)
    ensures AtMost(x, y) <==> AtMost(x, z)
    ensures Less(y, x) <==> Less(z, x)
    ensures AtMost(y, x) <==> AtMost(z, x)
    ensures Same(y, x) <==> Same(z, x)
  {}

  lemma Assoc(a: int, b: int, c: int)
    ensures a * b * c == a * (b * c)
  {}

  lemma ThreeProducts(n: int, s: int, c: int)
    ensures n * (s * c) == n * c * s
  {}

  lemma Spread(x: int, y: int, c: int)
    ensures (x - y) * c == x * c - y * c
    ensures (x + y) * c == x * c + y * c
    ensures x * (10 * c) == 10 * (x * c)
  {}

  lemma Swap(a: int, b: int, c: int)
    ensures a * b * c == a * c * b
  {
    assert b * c == c * b;
    assert a * b * c == a * (b * c);
    assert a * c * b == a * (c * b);
  }

  lemma SameSymmetric(x: Ratio, y: Ratio)
    requires Same(x, y)
    ensures Same(y, x)
  {}

  lemma SameTrans(x: Ratio, y: Ratio, z: Ratio)
    requires Same(x, y) && Same(y, z)
    ensures Same(x, z)
  {
    hide Same;
    SameSymmetric(x, y);
    LessThrough(x, y, z);
    SameSymmetric(z, x);
  }

  lemma LessTrans(x: Ratio, y: Ratio, z: Ratio)
    requires AtMost(x, y) && AtMost(y, z)
    ensures AtMost(x, z)
    ensures Less(x, y) || Less(y, z) ==> Less(x, z)
  {
    Swap(x.num, y.den, z.den);
    Swap(y.num, x.den, z.den);
    Swap(z.num, y.den, x.den);
    MulStrict(x.num * y.den, y.num * x.den, z.den);
    MulStrict(y.num * z.den, z.num * y.den, x.den);
    MulStrict(x.num * z.den, z.num * x.den, y.den);
  }

  predicate Balanced(p: nat, a: nat, c: nat, q: nat) {
    p * a == c * q
  }

  lemma PowBalance(base: nat, p: nat, a: nat, c: nat, q: nat)
    requires p + a == c + q
    ensures Balanced(Pow(base, p), Pow(base, a), Pow(base, c), Pow(base, q))
  {
    hide Pow;
    PowAdd(base, p, a);
    PowAdd(base, c, q);
  }

  lemma SameProducts(n: nat, p: nat, a: nat, c: nat, q: nat)
    requires Balanced(p, a, c, q) && q > 0 && a > 0
    ensures Same(Quotient(n * p, q), Quotient(n * c, a))
  {
    var x := p * a;
    assert n * x == (n * p) * a;
    assert n * x == (n * c) * q;
  }

  /** n * base^(c - a) is n * base^c / base^a. */
  lemma ScaleAs(n: nat, base: nat, a: nat, c: nat)
    requires base > 0
    ensures Same(Scale(n, base, c - a), Quotient(n * Pow(base, c), Pow(base, a)))
  {
    hide Pow, Same, Balanced;
    PowBalance(base, Pos(c - a), a, c, Neg(c - a));
    SameProducts(n, Pow(base, Pos(c - a)), Pow(base, a), Pow(base, c), Pow(base, Neg(c - a)));
  }

  /** A coarser power of the base is a multiple of a finer one. */
  lemma ScaleRefine(n: nat, base: nat, j: int, q: int)
    requires base > 0 && q <= j
    ensures Same(Scale(n, base, j), Scale(n * Pow(base, j - q), base, q))
  {
    hide Pow, Same;
    var a := Neg(q);
    var d := Pow(base, j - q);
    ScaleAs(n, base, a, j + a);
    ScaleAs(n * d, base, a, q + a);
    PowAdd(base, j - q, q + a);
    Assoc(n, d, Pow(base, q + a));
    LessThrough(Scale(n, base, j), Scale(n * d, base, q), Quotient(n * Pow(base, j + a), Pow(base, a)));
  }

  /** The comparison of n * base^(c - a) with h / s, without quotients. */
  lemma ScaleCompare(n: nat, base: nat, a: nat, c: nat, h: nat, s: nat)
    requires base > 0 && s > 0
    ensures AtMost(Scale(n, base, c - a), Quotient(h, s)) <==> n * (s * Pow(base, c)) <= h * Pow(base, a)
    ensures Less(Scale(n, base, c - a), Quotient(h, s)) <==> n * (s * Pow(base, c)) < h * Pow(base, a)
    ensures AtMost(Quotient(h, s), Scale(n, base, c - a)) <==> h * Pow(base, a) <= n * (s * Pow(base, c))
    ensures Less(Quotient(h, s), Scale(n, base, c - a)) <==> h * Pow(base, a) < n * (s * Pow(base, c))
  {
    hide Pow, Scale;
    var pa, pc := Pow(base, a), Pow(base, c);
    ScaleAs(n, base, a, c);
    LessThrough(Quotient(h, s), Scale(n, base, c - a), Quotient(n * pc, pa));
    ThreeProducts(n, s, pc);
  }

  lemma ScaleOrder(m: nat, n: nat, base: nat, j: int)
    requires base > 0
    ensures Less(Scale(m, base, j), Scale(n, base, j)) <==> m < n
    ensures AtMost(Scale(m, base, j), Scale(n, base, j)) <==> m <= n
    ensures Same(Scale(m, base, j), Scale(n, base, j)) <==> m == n
  {
    hide Pow;
    var p, q := Pow(base, Pos(j)), Pow(base, Neg(j));
    MulStrict(m, n, p);
    MulStrict(m * p, n * p, q);
  }

  function Abs(x: int): nat {
    if x < 0 then -x else x
  }

  /** |x - v|, in units of 1 / v.den. */
  function Distance(v: Ratio, x: Ratio): Ratio {
    Quotient(Abs(x.num * v.den - v.num * x.den), x.den)
  }

  /** |x - v| <= |y - v| */
  predicate Nearer(v: Ratio, x: Ratio, y: Ratio) {
    AtMost(Distance(v, x), Distance(v, y))
  }

  lemma AbsMul(x: int, c: nat)
    ensures Abs(x * c) == Abs(x) * c
  {}

  lemma NearerThrough(v: Ratio, w: Ratio, x: Ratio, y: Ratio)
    requires Same(v, w)
    ensures Nearer(v, x, y) <==> Nearer(w, x, y)
  {
    GapThrough(v, w, x);
    GapThrough(v, w, y);
    hide Abs, Same;
    var l, r := Abs(x.num * v.den - v.num * x.den), Abs(y.num * v.den - v.num * y.den);
    var l', r' := Abs(x.num * w.den - w.num * x.den), Abs(y.num * w.den - w.num * y.den);
    CancelBoth(l * y.den, r * x.den, l' * y.den, r' * x.den, w.den, v.den) by {
      Swap(l, y.den, w.den);
      Swap(l', y.den, v.den);
      Swap(r, x.den, w.den);
      Swap(r', x.den, v.den);
    }
  }

  lemma NearerTrans(v: Ratio, x: Ratio, y: Ratio, z: Ratio)
    requires Nearer(v, x, y) && Nearer(v, y, z)
    ensures Nearer(v, x, z)
  {
    hide Distance, AtMost;
    LessTrans(Distance(v, x), Distance(v, y), Distance(v, z));
  }

  lemma DistanceThrough(v: Ratio, x: Ratio, y: Ratio)
    requires Same(x, y)
    ensures Same(Distance(v, x), Distance(v, y))
  {
    AbsMul(x.num * v.den - v.num * x.den, y.den);
    AbsMul(y.num * v.den - v.num * y.den, x.den);
    hide Abs;
    DistanceProducts(v.num, v.den, x.num, x.den, y.num, y.den);
  }

  lemma DistanceProducts(vn: int, vd: int, xn: int, xd: int, yn: int, yd: int)
    requires xn * yd == yn * xd
    ensures (xn * vd - vn * xd) * yd == (yn * vd - vn * yd) * xd
  {
    assert (xn * yd) * vd == xn * vd * yd;
    assert (yn * xd) * vd == yn * vd * xd;
  }

  lemma NearerPoints(v: Ratio, x: Ratio, x': Ratio, y: Ratio, y': Ratio)
    requires Same(x, x') && Same(y, y')
    ensures Nearer(v, x, y) <==> Nearer(v, x', y')
  {
    DistanceThrough(v, x, x');
    DistanceThrough(v, y, y');
    hide Distance, AtMost, Same;
    LessThrough(Distance(v, y), Distance(v, x), Distance(v, x'));
    LessThrough(Distance(v, x'), Distance(v, y), Distance(v, y'));
  }

  /** Farther below is farther away. */
  lemma NearerBelow(v: Ratio, x: Ratio, y: Ratio)
    requires AtMost(y, x) && AtMost(x, v)
    ensures Nearer(v, x, y)
  {
    LessTrans(y, x, v);
    BelowProducts(v.num, v.den, x.num, x.den, y.num, y.den);
  }

  lemma BelowProducts(vn: nat, vd: nat, xn: nat, xd: nat, yn: nat, yd: nat)
    requires yn * xd <= xn * yd
    ensures (vn * xd - xn * vd) * yd <= (vn * yd - yn * vd) * xd
  {
    MulMono(yn * xd, xn * yd, vd);
    assert (vn * xd - xn * vd) * yd == vn * xd * yd - xn * yd * vd;
    assert (vn * yd - yn * vd) * xd == vn * xd * yd - yn * xd * vd;
  }

  lemma CancelBoth(l: int, r: int, l': int, r': int, c: nat, d: nat)
    requires c > 0 && d > 0 && l * c == l' * d && r * c == r' * d
    ensures l <= r <==> l' <= r'
  {
    MulStrict(l, r, c);
    MulStrict(l', r', d);
  }

  lemma GapThrough(v: Ratio, w: Ratio, x: Ratio)
    requires Same(v, w)
    ensures Abs(x.num * v.den - v.num * x.den) * w.den == Abs(x.num * w.den - w.num * x.den) * v.den
  {
    AbsMul(x.num * v.den - v.num * x.den, w.den);
    AbsMul(x.num * w.den - w.num * x.den, v.den);
    GapCross(x.num, x.den, v.num, v.den, w.num, w.den);
  }

  lemma GapCross(xn: int, xd: int, vn: int, vd: int, wn: int, wd: int)
    requires vn * wd == wn * vd
    ensures (xn * vd - vn * xd) * wd == (xn * wd - wn * xd) * vd
  {
    assert vn * xd * wd == xd * (vn * wd);
    assert wn * xd * vd == xd * (wn * vd);
  }

  lemma GapScale(u: int, h: int, pa: int, pb: int, p: int, q: int)
    requires p * pa == pb * q
    ensures (u * pb - h * pa) * q == (u * p - h * q) * pa
  {
    var z := p * pa;
    assert u * p * pa == u * z;
    assert u * pb * q == u * z;
  }

  /** The distance from h / s to a grid point, in the grid's scaled integers. */
  function Gap(h: nat, s: nat, m: nat, pa: nat, pb: nat): nat {
    Abs(m * (s * pb) - h * pa)
  }

  lemma GapProducts(h: nat, s: nat, m: nat, pa: nat, pb: nat, p: nat, q: nat)
    requires Balanced(p, pa, pb, q)
    ensures Gap(h, s, m, pa, pb) * q == Abs(m * p * s - h * q) * pa
  {
    hide Abs;
    Assoc(m, s, pb);
    Swap(m, s, p);
    GapScale(m * s, h, pa, pb, p, q);
    AbsMul(m * s * pb - h * pa, q);
    AbsMul(m * s * p - h * q, pa);
  }

  lemma NearerProducts(h: nat, s: nat, x: Ratio, y: Ratio, m: nat, n: nat, pa: nat, pb: nat, p: nat, q: nat)
    requires Balanced(p, pa, pb, q) && q > 0 && pa > 0 && s > 0
    requires x == Quotient(m * p, q) && y == Quotient(n * p, q)
    ensures Nearer(Quotient(h, s), x, y) <==> Gap(h, s, m, pa, pb) <= Gap(h, s, n, pa, pb)
  {
    GapProducts(h, s, m, pa, pb, p, q);
    GapProducts(h, s, n, pa, pb, p, q);
    hide Abs, Gap;
    var l, r := Abs(m * p * s - h * q), Abs(n * p * s - h * q);
    MulStrict(l, r, q);
    CancelBoth(Gap(h, s, m, pa, pb), Gap(h, s, n, pa, pb), l, r, q, pa);
  }

  /** Distances from h / s to two points of one grid compare like their scaled integers. */
  lemma NearerOnGrid(h: nat, s: nat, m: nat, n: nat, base: nat, a: nat, b: nat)
    requires base > 0 && s > 0
    ensures Nearer(Quotient(h, s), Scale(m, base, b - a), Scale(n, base, b - a)) <==>
            Gap(h, s, m, Pow(base, a), Pow(base, b)) <= Gap(h, s, n, Pow(base, a), Pow(base, b))
  {
    hide Pow, Gap, Nearer, Balanced;
    var x, y := Scale(m, base, b - a), Scale(n, base, b - a);
    PowBalance(base, Pos(b - a), a, b, Neg(b - a));
    NearerProducts(h, s, x, y, m, n, Pow(base, a), Pow(base, b), Pow(base, Pos(b - a)), Pow(base, Neg(b - a)));
  }

  // ----- decimal digit strings -----

  predicate IsDigit(c: char) {
    '0' <= c <= '9'
  }

  predicate AllDigits(s: string) {
    forall i :: 0 <= i < |s| ==> IsDigit(s[i])
  }

  function DigitOf(c: char): nat
    requires IsDigit(c)
  {
    c as nat - '0' as nat
  }

  function DigitChar(d: nat): (c: char)
    requires d <= 9
    ensures IsDigit(c) && DigitOf(c) == d
  {
    ('0' as nat + d) as char
  }

  /** The number a digit string writes, most significant digit first; zero for the empty string. */
  function NatOf(s: string): nat
    requires AllDigits(s)
  {
    if s == "" then 0 else 10 * NatOf(s[..|s| - 1]) + DigitOf(s[|s| - 1])
  }

  lemma NatOfSnoc(s: string, c: char)
    requires AllDigits(s) && IsDigit(c)
    ensures AllDigits(s + [c]) && NatOf(s + [c]) == 10 * NatOf(s) + DigitOf(c)
  {
    assert (s + [c])[..|s|] == s;
  }

  lemma {:induction false} NatOfBound(s: string)
    requires AllDigits(s)
    ensures NatOf(s) < Pow(10, |s|)
    ensures s != "" && s[0] == '0' ==> NatOf(s) < Pow(10, |s| - 1)
  {
    if |s| <= 1 {
    } else {
      NatOfBound(s[..|s| - 1]);
    }
  }
}
