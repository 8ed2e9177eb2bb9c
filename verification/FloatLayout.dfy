/** The decimal text of host/float.ts: `layout`, the `DECIMAL` grammar, `parse`, `fixed`, and the round trip. */
module FloatLayout {
  import opened Powers
  import opened Rationals
  import opened FloatDigits
  import FloatClosest
  import opened FloatReader
  import opened FloatText
  import opened Options

  // ----- digit strings -----

  function Zeros(n: nat): (s: string)
    ensures |s| == n && AllDigits(s)
  {
    seq(n, i => '0')
  }

  lemma {:induction false} NatOfAppend(s: string, t: string)
    requires AllDigits(s) && AllDigits(t)
    ensures AllDigits(s + t) && NatOf(s + t) == NatOf(s) * Pow(10, |t|) + NatOf(t)
  {
    if t == "" {
      assert s + t == s;
    } else {
      var u, c := t[..|t| - 1], t[|t| - 1];
      NatOfAppend(s, u);
      assert s + t == (s + u) + [c];
      NatOfSnoc(s + u, c);
      Spread(NatOf(s), 0, Pow(10, |u|));
    }
  }

  lemma {:induction false} NatOfZeros(n: nat)
    ensures NatOf(Zeros(n)) == 0
  {
    if n > 0 {
      assert Zeros(n)[..n - 1] == Zeros(n - 1);
      NatOfZeros(n - 1);
    }
  }

  lemma LeadingZeros(n: nat, s: string)
    requires AllDigits(s)
    ensures AllDigits(Zeros(n) + s) && NatOf(Zeros(n) + s) == NatOf(s)
  {
    NatOfAppend(Zeros(n), s);
    NatOfZeros(n);
  }

  lemma TrailingZeros(s: string, n: nat)
    requires AllDigits(s)
    ensures AllDigits(s + Zeros(n)) && NatOf(s + Zeros(n)) == NatOf(s) * Pow(10, n)
  {
    NatOfAppend(s, Zeros(n));
    NatOfZeros(n);
  }

  /** `toString` of a nonnegative integer. */
  function NatText(n: nat): (s: string)
    ensures s != "" && AllDigits(s) && NatOf(s) == n
    ensures n > 0 || |s| > 1 ==> s[0] != '0'
  {
    if n < 10 then
      assert [DigitChar(n)][..0] == "";
      [DigitChar(n)]
    else
      NatOfSnoc(NatText(n / 10), DigitChar(n % 10));
      NatText(n / 10) + [DigitChar(n % 10)]
  }

  // ----- `layout` -----

  /** `layout` (host/float.ts:179-191). */
  function Layout(sign: string, ds: string, exponent: int): string
    requires ds != ""
  {
    if -6 <= exponent < 21 then
      if exponent < 0 then
        sign + ("0" + ("." + (Zeros(-exponent - 1) + ds)))
      else
        var whole := if |ds| > exponent + 1 then ds[..exponent + 1] else ds + Zeros(exponent + 1 - |ds|);
        var rest := if |ds| > exponent + 1 then ds[exponent + 1..] else "";
        sign + (whole + ("." + (if rest == "" then "0" else rest)))
    else
      var mantissa := if |ds| > 1 then ds[..1] + ("." + ds[1..]) else ds;
      sign + (mantissa + ("e" + ((if exponent < 0 then "-" else "+") + NatText(Abs(exponent)))))
  }

  // ----- the grammar -----

  function PointText(fraction: Option<string>): string {
    if fraction.Some? then "." + fraction.value else ""
  }

  function PowerText(power: Option<string>, e: char): string {
    if power.Some? then [e] + power.value else ""
  }

  /** The groups of a match of `DECIMAL` (host/float.ts:226): the point and the exponent part may be missing. */
  datatype Parts = Parts(whole: string, fraction: Option<string>, power: Option<string>) {
    predicate Valid() {
      && AllDigits(whole) && (fraction.Some? ==> AllDigits(fraction.value))
      && (whole == "" ==> fraction.Some? && fraction.value != "")
      && (power.Some? ==> IsPower(power.value))
    }

    function Text(e: char): string {
      whole + (PointText(fraction) + PowerText(power, e))
    }

    function Digits(): (s: string)
      requires Valid()
      ensures AllDigits(s) && s != ""
    {
      whole + if fraction.Some? then fraction.value else ""
    }

    /** The exponent of the last digit. */
    function Place(): int
      requires Valid()
    {
      (if power.Some? then PowerOf(power.value) else 0) - (if fraction.Some? then |fraction.value| else 0)
    }

    /** The number a match denotes. */
    function Value(): Ratio
      requires Valid()
    {
      Decimal(NatOf(Digits()), Place())
    }
  }

  /** An exponent: an optional sign, then at least one digit. */
  predicate IsPower(s: string) {
    s != "" && var t := if s[0] == '+' || s[0] == '-' then s[1..] else s; t != "" && AllDigits(t)
  }

  function PowerOf(s: string): int
    requires IsPower(s)
  {
    if s[0] == '-' then -(NatOf(s[1..]) as int) else if s[0] == '+' then NatOf(s[1..]) else NatOf(s)
  }

  /** An exponent is digits, alone or after a plus or a minus. */
  lemma PowerMeans(digits: string)
    requires AllDigits(digits) && digits != ""
    ensures IsPower(digits) && PowerOf(digits) == NatOf(digits)
    ensures IsPower("+" + digits) && PowerOf("+" + digits) == NatOf(digits)
    ensures IsPower("-" + digits) && PowerOf("-" + digits) == -(NatOf(digits) as int)
  {
    assert ("+" + digits)[1..] == digits && ("-" + digits)[1..] == digits;
  }

  lemma PowersAre(s: string)
    requires IsPower(s)
    ensures AllDigits(s) || (|s| > 1 && (s[0] == '+' || s[0] == '-') && AllDigits(s[1..]))
  {}

  /** The whole part and the fraction, each as a number, over the power of ten. */
  lemma ValueMeans(g: Parts)
    requires g.Valid()
    ensures var f := if g.fraction.Some? then g.fraction.value else "";
            var e := if g.power.Some? then PowerOf(g.power.value) else 0;
            g.Value() == Decimal(NatOf(g.whole) * Pow(10, |f|) + NatOf(f), e - |f|)
  {
    hide IsPower, PowerOf, Pow, Decimal;
    NatOfAppend(g.whole, if g.fraction.Some? then g.fraction.value else "");
  }

  /** The length of the longest digit prefix. */
  function Span(s: string): (n: nat)
    ensures n <= |s| && AllDigits(s[..n])
    ensures n < |s| ==> !IsDigit(s[n])
  {
    if s == "" || !IsDigit(s[0]) then 0
    else
      assert s[..1 + Span(s[1..])] == [s[0]] + s[1..][..Span(s[1..])];
      1 + Span(s[1..])
  }

  function MatchPower(whole: string, fraction: Option<string>, rest: string): (r: Option<Parts>) {
    if rest == "" then Some(Parts(whole, fraction, None))
    else if (rest[0] == 'e' || rest[0] == 'E') && IsPower(rest[1..]) then Some(Parts(whole, fraction, Some(rest[1..])))
    else None
  }

  /** `DECIMAL.exec`. Every alternative starts with a character the others exclude, so nothing is retried. */
  function Match(text: string): Option<Parts> {
    var n := Span(text);
    var whole, rest := text[..n], text[n..];
    if rest != "" && rest[0] == '.' then
      var k := Span(rest[1..]);
      if whole == "" && k == 0 then None else MatchPower(whole, Some(rest[1..][..k]), rest[1..][k..])
    else if whole == "" then None
    else MatchPower(whole, None, rest)
  }

  lemma {:induction false} SpanOf(digits: string, rest: string)
    requires AllDigits(digits) && (rest != "" ==> !IsDigit(rest[0]))
    ensures Span(digits + rest) == |digits|
    ensures (digits + rest)[..|digits|] == digits && (digits + rest)[|digits|..] == rest
  {
    if digits == "" {
      assert digits + rest == rest;
    } else {
      SpanOf(digits[1..], rest);
      assert (digits + rest)[1..] == digits[1..] + rest;
    }
  }

  lemma MatchPowerOf(p: Parts, e: char)
    requires p.Valid() && (e == 'e' || e == 'E')
    ensures MatchPower(p.whole, p.fraction, PowerText(p.power, e)) == Some(p)
  {
    if p.power.Some? {
      assert PowerText(p.power, e)[1..] == p.power.value;
    }
  }

  lemma MatchPointed(whole: string, f: string, tail: string)
    requires AllDigits(whole) && AllDigits(f) && whole + f != "" && (tail != "" ==> !IsDigit(tail[0]))
    ensures Match(whole + ("." + (f + tail))) == MatchPower(whole, Some(f), tail)
  {
    hide MatchPower, Span;
    var rest := "." + (f + tail);
    assert rest[1..] == f + tail;
    SpanOf(whole, rest);
    SpanOf(f, tail);
  }

  lemma MatchPlain(whole: string, tail: string)
    requires AllDigits(whole) && whole != "" && (tail != "" ==> !IsDigit(tail[0]) && tail[0] != '.')
    ensures Match(whole + tail) == MatchPower(whole, None, tail)
  {
    hide MatchPower, Span;
    SpanOf(whole, tail);
  }

  /** A text written from valid groups matches, and the match finds those groups. */
  lemma MatchComplete(p: Parts, e: char)
    requires p.Valid() && (e == 'e' || e == 'E')
    ensures Match(p.Text(e)) == Some(p)
  {
    var tail := PowerText(p.power, e);
    hide Match, MatchPower, IsPower, PowerText;
    MatchPowerOf(p, e);
    PowerStarts(p.power, e);
    if p.fraction.Some? {
      var f := p.fraction.value;
      assert PointText(p.fraction) + tail == "." + (f + tail);
      MatchPointed(p.whole, f, tail);
    } else {
      assert PointText(p.fraction) + tail == tail;
      MatchPlain(p.whole, tail);
    }
  }

  lemma PowerStarts(power: Option<string>, e: char)
    requires e == 'e' || e == 'E'
    ensures var t := PowerText(power, e); t == "" || (!IsDigit(t[0]) && t[0] != '.')
  {}

  lemma MatchPowerSound(whole: string, fraction: Option<string>, rest: string)
    ensures var r := MatchPower(whole, fraction, rest);
            r.Some? ==>
              && r.value.whole == whole && r.value.fraction == fraction && (r.value.power.Some? ==> IsPower(r.value.power.value))
              && (PowerText(r.value.power, 'e') == rest || PowerText(r.value.power, 'E') == rest)
  {
    assert rest != "" ==> rest == [rest[0]] + rest[1..];
  }

  predicate WrittenFrom(p: Parts, text: string) {
    p.Valid() && (p.Text('e') == text || p.Text('E') == text)
  }

  lemma PointedSound(whole: string, f: string, tail: string)
    requires AllDigits(whole) && AllDigits(f) && whole + f != ""
    ensures var r := MatchPower(whole, Some(f), tail); r.Some? ==> WrittenFrom(r.value, whole + (("." + f) + tail))
  {
    MatchPowerSound(whole, Some(f), tail);
  }

  lemma PlainSound(whole: string, tail: string)
    requires AllDigits(whole) && whole != ""
    ensures var r := MatchPower(whole, None, tail); r.Some? ==> WrittenFrom(r.value, whole + tail)
  {
    MatchPowerSound(whole, None, tail);
    assert "" + tail == tail;
  }

  lemma SpanParts(text: string)
    ensures var n := Span(text); text == text[..n] + text[n..] && AllDigits(text[..n])
  {
    hide Span, AllDigits;
  }

  lemma PointParts(rest: string, k: nat)
    requires rest != "" && rest[0] == '.' && k < |rest|
    ensures rest == ("." + rest[1..][..k]) + rest[1..][k..]
  {}

  /** Whatever matches is written from the groups found. */
  lemma MatchSound(text: string)
    ensures Match(text).Some? ==> WrittenFrom(Match(text).value, text)
  {
    hide MatchPower, WrittenFrom, Span, AllDigits;
    var n := Span(text);
    var whole, rest := text[..n], text[n..];
    SpanParts(text);
    if rest != "" && rest[0] == '.' {
      var k := Span(rest[1..]);
      SpanParts(rest[1..]);
      PointParts(rest, k);
      if whole != "" || k > 0 {
        PointedSound(whole, rest[1..][..k], rest[1..][k..]);
      }
    } else if whole != "" {
      PlainSound(whole, rest);
    }
  }

  // ----- every form of `layout` denotes the digits it was given -----

  function SignedPower(exponent: int): (s: string)
    ensures IsPower(s) && PowerOf(s) == exponent
  {
    var s := (if exponent < 0 then "-" else "+") + NatText(Abs(exponent));
    assert s[1..] == NatText(Abs(exponent));
    s
  }

  /** The groups of a `layout` text. */
  function LayoutParts(ds: string, exponent: int): Parts
    requires ds != ""
  {
    if -6 <= exponent < 21 then
      if exponent < 0 then Parts("0", Some(Zeros(-exponent - 1) + ds), None)
      else if |ds| > exponent + 1 then Parts(ds[..exponent + 1], Some(ds[exponent + 1..]), None)
      else Parts(ds + Zeros(exponent + 1 - |ds|), Some("0"), None)
    else Parts(ds[..1], if |ds| > 1 then Some(ds[1..]) else None, Some(SignedPower(exponent)))
  }

  /** The groups of a form write its text and denote its digits. */
  ghost predicate Writes(ds: string, exponent: int)
    requires ds != "" && AllDigits(ds)
  {
    var p := LayoutParts(ds, exponent);
    p.Valid() && p.Text('e') == Layout("", ds, exponent) && Same(p.Value(), Decimal(NatOf(ds), exponent + 1 - |ds|))
  }

  lemma PointForm(p: Parts)
    requires p.Valid() && p.fraction.Some? && p.power.None?
    ensures p.Text('e') == "" + (p.whole + ("." + p.fraction.value))
  {
    var point := "." + p.fraction.value;
    assert PointText(p.fraction) + PowerText(p.power, 'e') == point;
    assert "" + (p.whole + point) == p.whole + point;
  }

  lemma PlainValue(p: Parts, ds: string, j: int)
    requires p.Valid() && AllDigits(ds) && NatOf(p.Digits()) == NatOf(ds) && p.Place() == j
    ensures Same(p.Value(), Decimal(NatOf(ds), j))
  {}

  lemma SmallForm(ds: string, exponent: int)
    requires ds != "" && AllDigits(ds) && -6 <= exponent < 0
    ensures Writes(ds, exponent)
  {
    var p := LayoutParts(ds, exponent);
    PointForm(p);
    assert "0" == Zeros(1);
    LeadingZeros(-exponent - 1, ds);
    LeadingZeros(1, Zeros(-exponent - 1) + ds);
    hide NatOf, Same;
    PlainValue(p, ds, exponent + 1 - |ds|);
  }

  lemma PaddedForm(ds: string, exponent: int)
    requires ds != "" && AllDigits(ds) && 0 <= exponent < 21 && |ds| <= exponent + 1
    ensures Writes(ds, exponent)
  {
    var z := exponent + 1 - |ds|;
    var p := LayoutParts(ds, exponent);
    PointForm(p);
    assert Zeros(z) + "0" == Zeros(z + 1);
    assert (ds + Zeros(z)) + "0" == ds + (Zeros(z) + "0");
    hide NatOf, Same, Zeros;
    PaddedValue(ds, z, p);
  }

  lemma PaddedValue(ds: string, z: nat, p: Parts)
    requires ds != "" && AllDigits(ds) && p.Valid()
    requires p.Digits() == ds + Zeros(z + 1) && p.Place() == -1
    ensures Same(p.Value(), Decimal(NatOf(ds), z))
  {
    hide Same, Pow, Zeros, NatOf, Scale;
    TrailingZeros(ds, z + 1);
    assert z - -1 == z + 1;
    ScaleRefine(NatOf(ds), 10, z, -1);
    SameSymmetric(Decimal(NatOf(ds), z), p.Value());
  }

  lemma SplitForm(ds: string, exponent: int)
    requires ds != "" && AllDigits(ds) && 0 <= exponent < 21 && |ds| > exponent + 1
    ensures Writes(ds, exponent)
  {
    var p := LayoutParts(ds, exponent);
    PointForm(p);
    assert ds[..exponent + 1] + ds[exponent + 1..] == ds;
    hide NatOf, Same;
    PlainValue(p, ds, exponent + 1 - |ds|);
  }

  lemma ScienceText(ds: string, exponent: int)
    requires ds != "" && AllDigits(ds) && !(-6 <= exponent < 21)
    ensures LayoutParts(ds, exponent).Text('e') == Layout("", ds, exponent)
  {
    var p := LayoutParts(ds, exponent);
    var point, tail := PointText(p.fraction), PowerText(p.power, 'e');
    hide NatText, SignedPower, NatOf, AllDigits;
    if |ds| > 1 {
      assert p.whole + (point + tail) == (p.whole + point) + tail;
      assert "" + ((p.whole + point) + tail) == (p.whole + point) + tail;
    } else {
      assert ds[..1] == ds;
      assert point + tail == tail;
      assert "" + (ds + tail) == ds + tail;
    }
  }

  lemma ScienceParts(ds: string, exponent: int)
    requires ds != "" && AllDigits(ds) && !(-6 <= exponent < 21)
    ensures var p := LayoutParts(ds, exponent); p.Valid() && p.Digits() == ds && p.Place() == exponent + 1 - |ds|
  {
    hide NatText, SignedPower, NatOf, IsPower, PowerOf, Layout;
    assert ds[..1] + (if |ds| > 1 then ds[1..] else "") == ds;
  }

  lemma ScienceForm(ds: string, exponent: int)
    requires ds != "" && AllDigits(ds) && !(-6 <= exponent < 21)
    ensures Writes(ds, exponent)
  {
    hide LayoutParts, Layout, Parts.Text, Parts.Valid, Parts.Digits, Parts.Place, Parts.Value, NatOf, Same, AllDigits;
    ScienceText(ds, exponent);
    ScienceParts(ds, exponent);
    PlainValue(LayoutParts(ds, exponent), ds, exponent + 1 - |ds|);
  }

  lemma LayoutWrites(ds: string, exponent: int)
    requires ds != "" && AllDigits(ds)
    ensures Writes(ds, exponent)
  {
    hide Writes, NatOf;
    if -6 <= exponent < 0 {
      SmallForm(ds, exponent);
    } else if 0 <= exponent < 21 && |ds| <= exponent + 1 {
      PaddedForm(ds, exponent);
    } else if 0 <= exponent < 21 {
      SplitForm(ds, exponent);
    } else {
      ScienceForm(ds, exponent);
    }
  }

  /** The text `layout` writes, in each of its forms, matches the grammar and denotes exactly the digits. */
  lemma LayoutDenotes(ds: string, exponent: int)
    requires ds != "" && AllDigits(ds)
    ensures var m := Match(Layout("", ds, exponent));
            m.Some? && m.value.Valid() && Same(m.value.Value(), Decimal(NatOf(ds), exponent + 1 - |ds|))
  {
    hide Layout, LayoutParts, Match, Parts.Text, Parts.Valid, Parts.Value, NatOf, Same;
    LayoutWrites(ds, exponent);
    MatchComplete(LayoutParts(ds, exponent), 'e');
  }

  // ----- the form of a printed text -----

  /** Digits that do not end with a zero. */
  predicate Trimmed(s: string) {
    s != "" && s[|s| - 1] != '0'
  }

  /** Digits with no spare leading zero. */
  predicate Plain(s: string) {
    s != "" && (|s| > 1 ==> s[0] != '0')
  }

  /** A sign and digits with no spare leading zero. */
  predicate Signed(s: string) {
    s != "" && (s[0] == '-' || s[0] == '+') && Plain(s[1..])
  }

  /**
   * The groups of a text whose first significant digit counts 10^exponent. From 10^-6 to below 10^21 it has no
   * exponent part, but a point with digits on both sides, and ends with a zero only in ".0"; elsewhere it has one
   * digit before the point, if there is one, and a signed exponent.
   */
  predicate Formed(g: Parts, exponent: int)
    requires g.Valid()
  {
    if -6 <= exponent < 21 then
      g.power.None? && Plain(g.whole) && g.fraction.Some? && (g.fraction.value == "0" || Trimmed(g.fraction.value))
    else
      && |g.whole| == 1 && g.whole != "0" && (g.fraction.Some? ==> Trimmed(g.fraction.value))
      && g.power.Some? && Signed(g.power.value) && PowerOf(g.power.value) == exponent
  }

  /** `layout` gives digits without zeros at their ends that form. */
  lemma LayoutFormed(ds: string, exponent: int)
    requires ds != "" && AllDigits(ds) && ds[0] != '0' && ds[|ds| - 1] != '0'
    ensures LayoutParts(ds, exponent).Valid() && Formed(LayoutParts(ds, exponent), exponent)
  {
    hide NatOf, NatText;
    if !(-6 <= exponent < 21) {
      ScienceParts(ds, exponent);
      assert ds[..1][0] == ds[0];
      PowerSigned(exponent);
    }
  }

  lemma PowerSigned(exponent: int)
    ensures Signed(SignedPower(exponent)) && PowerOf(SignedPower(exponent)) == exponent
  {
    var s := SignedPower(exponent);
    assert s[1..] == NatText(Abs(exponent));
  }

  /** Only an exponent part holds an 'e'. */
  lemma PowerShows(g: Parts)
    requires g.Valid()
    ensures 'e' in g.Text('e') <==> g.power.Some?
  {
    hide IsPower;
    NoLetters(g.whole);
    var tail := PowerText(g.power, 'e');
    if g.power.Some? {
      assert tail[0] == 'e';
    }
    if g.fraction.Some? {
      NoLetters(g.fraction.value);
    }
  }

  lemma NoLetters(s: string)
    requires AllDigits(s)
    ensures 'e' !in s
  {}

  // ----- only one text of that form denotes a number -----

  lemma {:induction false} NatOfInjective(s: string, t: string)
    requires AllDigits(s) && AllDigits(t) && |s| == |t| && NatOf(s) == NatOf(t)
    ensures s == t
    decreases |s|
  {
    if s != "" {
      var n := |s| - 1;
      NatOfInjective(s[..n], t[..n]);
      assert s == s[..n] + [s[n]] && t == t[..n] + [t[n]];
    }
  }

  lemma {:induction false} NatOfLeads(s: string)
    requires AllDigits(s) && s != "" && s[0] != '0'
    ensures Pow(10, |s| - 1) <= NatOf(s)
  {
    if |s| == 1 {
      assert s[..0] == "";
    } else {
      NatOfLeads(s[..|s| - 1]);
    }
  }

  lemma PlainShorter(s: string, t: string)
    requires AllDigits(s) && AllDigits(t) && Plain(t) && |s| < |t| && s != ""
    ensures NatOf(s) < NatOf(t)
  {
    NatOfBound(s);
    NatOfLeads(t);
    hide Pow, NatOf;
    PowMono(10, |s|, |t| - 1);
  }

  lemma PlainInjective(s: string, t: string)
    requires AllDigits(s) && AllDigits(t) && Plain(s) && Plain(t) && NatOf(s) == NatOf(t)
    ensures s == t
  {
    hide NatOf;
    if |s| < |t| {
      PlainShorter(s, t);
    } else if |t| < |s| {
      PlainShorter(t, s);
    } else {
      NatOfInjective(s, t);
    }
  }

  /** Digits of one number, counted from the same place: further digits end with a zero. */
  lemma FurtherDigits(s: string, a: nat, t: string, b: nat, e: int)
    requires AllDigits(s) && AllDigits(t) && s != "" && b <= a
    requires Same(Decimal(NatOf(s), e - a), Decimal(NatOf(t), e - b))
    ensures a == b ==> NatOf(s) == NatOf(t)
    ensures b < a ==> s[|s| - 1] == '0'
  {
    hide NatOf, Pow, Same, Scale;
    var n, m, p := NatOf(s), NatOf(t), Pow(10, a - b);
    LastDigit(s);
    TensPower(a - b);
    ScaleRefine(m, 10, e - b, e - a);
    SameTrans(Decimal(n, e - a), Decimal(m, e - b), Decimal(m * p, e - a));
    ScaleOrder(n, m * p, 10, e - a);
    if b < a {
      TenTimes(m, Pow(10, a - b - 1));
    }
  }

  lemma LastDigit(s: string)
    requires AllDigits(s) && s != ""
    ensures NatOf(s) % 10 == DigitOf(s[|s| - 1])
  {}

  lemma TensPower(n: nat)
    ensures Pow(10, n) == if n == 0 then 1 else 10 * Pow(10, n - 1)
  {}

  lemma TenTimes(m: nat, p: nat)
    ensures m * (10 * p) % 10 == 0
  {
    assert m * (10 * p) == 10 * (m * p);
  }

  lemma SameSplit(a: nat, b: nat, c: nat, d: nat, p: nat)
    requires a * p + b == c * p + d && b < p && d < p
    ensures a == c && b == d
  {
    if a < c {
      MulMono(a + 1, c, p);
      Spread(a, 1, p);
    } else if c < a {
      MulMono(c + 1, a, p);
      Spread(c, 1, p);
    }
  }

  lemma FixedOne(g: Parts, h: Parts, exponent: int)
    requires g.Valid() && h.Valid() && -6 <= exponent < 21 && Formed(g, exponent) && Formed(h, exponent)
    requires Same(g.Value(), h.Value()) && |g.fraction.value| >= |h.fraction.value|
    ensures g == h
  {
    var (u, v) := (g.fraction.value, h.fraction.value);
    hide NatOf, Pow, Same, Decimal;
    FurtherDigits(g.Digits(), |u|, h.Digits(), |v|, 0);
    NatOfAppend(g.whole, u);
    NatOfAppend(h.whole, v);
    NatOfBound(u);
    NatOfBound(v);
    SameSplit(NatOf(g.whole), NatOf(u), NatOf(h.whole), NatOf(v), Pow(10, |u|));
    NatOfInjective(u, v);
    PlainInjective(g.whole, h.whole);
  }

  lemma ScienceOne(g: Parts, h: Parts, exponent: int)
    requires g.Valid() && h.Valid() && !(-6 <= exponent < 21) && Formed(g, exponent) && Formed(h, exponent)
    requires Same(g.Value(), h.Value()) && |g.Digits()| >= |h.Digits()|
    ensures g == h
  {
    hide NatOf, Pow, Same, Decimal;
    FurtherDigits(g.Digits(), |g.Digits()| - 1, h.Digits(), |h.Digits()| - 1, exponent);
    NatOfInjective(g.Digits(), h.Digits());
    assert g.whole == g.Digits()[..1] && h.whole == h.Digits()[..1];
    assert g.Digits()[1..] == h.Digits()[1..];
    var s, t := g.power.value, h.power.value;
    PlainInjective(s[1..], t[1..]);
    assert s == [s[0]] + s[1..] && t == [t[0]] + t[1..];
  }

  /** Groups of that form that denote the same number are the same. */
  lemma FormedOne(g: Parts, h: Parts, exponent: int)
    requires g.Valid() && h.Valid() && Formed(g, exponent) && Formed(h, exponent) && Same(g.Value(), h.Value())
    ensures g == h
  {
    hide NatOf, Same, Decimal, Parts.Valid;
    SameSymmetric(g.Value(), h.Value());
    if -6 <= exponent < 21 {
      if |g.fraction.value| >= |h.fraction.value| {
        FixedOne(g, h, exponent);
      } else {
        FixedOne(h, g, exponent);
      }
    } else if |g.Digits()| >= |h.Digits()| {
      ScienceOne(g, h, exponent);
    } else {
      ScienceOne(h, g, exponent);
    }
  }

  // ----- `parse` -----

  datatype Result<T> = Ok(value: T) | Err(message: string)

  /** `replace(/^0+/, "")` on a digit string. */
  function Significant(s: string): (r: string)
    requires AllDigits(s)
    ensures AllDigits(r) && NatOf(r) == NatOf(s) && (r == "" || r[0] != '0')
  {
    if s == "" || s[0] != '0' then s
    else
      LeadingZeros(1, s[1..]);
      assert Zeros(1) + s[1..] == s;
      Significant(s[1..])
  }

  lemma ZeroRounds(x: Ratio)
    requires x.num == 0
    ensures Rounded(x, Finite(0, MIN_UNIT))
  {
    var c: nat :| c >= 1076;
    hide Pow, Rounded;
    MulStrict(0, Pow(2, MIN_UNIT + c), x.den);
    RoundedAtUnit(x, MIN_UNIT, 0, c);
  }

  /** `Number` on a text of at most twenty significant digits, which ECMA-262 rounds correctly. */
  method NumberOf(x: Ratio) returns (r: Float64)
    ensures Rounded(x, r)
  {
    if x.num == 0 {
      ZeroRounds(x);
      r := Finite(0, MIN_UNIT);
    } else {
      r := RoundQuotient(x.num, x.den);
    }
  }

  /** `parse` (host/float.ts:234-246): an error outside the grammar, and the nearest float inside it. */
  method Parse(text: string) returns (r: Result<Float64>)
    ensures r.Ok? <==> Match(text).Some?
    ensures r.Ok? ==> Match(text).value.Valid() && Rounded(Match(text).value.Value(), r.value)
  {
    MatchSound(text);
    hide Match, Rounded, Parts.Text;
    var m := Match(text);
    if m.None? {
      return Err("parse_f64: text outside the grammar: " + text);
    }
    var significant := Significant(m.value.Digits());
    var v: Float64;
    if |significant| <= 20 {
      v := NumberOf(m.value.Value());
    } else {
      v := ParseExact(significant, m.value.Place());
    }
    return Ok(v);
  }

  // ----- `split` -----

  /** A width's stored significand bits, exponent values and bias. */
  datatype FloatWidth = FloatWidth(mantissa: nat, exponents: nat, bias: nat)

  const SINGLE := FloatWidth(23, 256, 127)
  const DOUBLE := FloatWidth(52, 2048, 1023)

  /** The stored significand, the biased exponent and the sign of some bits. */
  function Fraction(bits: nat, w: FloatWidth): nat {
    bits % Pow(2, w.mantissa)
  }

  function Biased(bits: nat, w: FloatWidth): nat
    requires w.exponents > 0
  {
    bits / Pow(2, w.mantissa) % w.exponents
  }

  function SignBit(bits: nat, w: FloatWidth): nat
    requires w.exponents > 0
  {
    bits / Pow(2, w.mantissa) / w.exponents
  }

  /** `split` (host/float.ts:55-83). */
  function Split(bits: nat, w: FloatWidth): FloatParts
    requires w.exponents > 0
  {
    var fraction, biased, hidden := Fraction(bits, w), Biased(bits, w), Pow(2, w.mantissa);
    var min := 1 - w.bias - w.mantissa;
    if biased == 0 then FloatParts(SignBit(bits, w) != 0, fraction, min, min, hidden)
    else FloatParts(SignBit(bits, w) != 0, fraction + hidden, biased - w.bias - w.mantissa, min, hidden)
  }

  lemma FractionBound(bits: nat, w: FloatWidth)
    ensures Fraction(bits, w) < Pow(2, w.mantissa)
  {
    hide Pow;
  }

  /** The parts of a finite nonzero float of each width are those that printing and reading are about. */
  lemma SplitsFloats(bits: nat)
    ensures Biased(bits, SINGLE) < 255 && Split(bits, SINGLE).f > 0 ==> FloatClosest.Binary32(Split(bits, SINGLE))
    ensures Biased(bits, DOUBLE) < 2047 && Split(bits, DOUBLE).f > 0 ==> FiniteFloat64(Split(bits, DOUBLE))
  {
    hide Pow, Fraction, Biased, SignBit;
    DoubleHidden();
    FractionBound(bits, SINGLE);
    FractionBound(bits, DOUBLE);
  }

  lemma DoubleHidden()
    ensures Pow(2, 52) == FloatReader.HIDDEN
  {
    PowHidden(0);
    assert Pow(2, 0) == 1;
    hide Pow;
  }

  lemma Recompose(bits: nat, h: nat, e: nat)
    requires h > 0 && e > 0
    ensures bits == bits % h + h * (bits / h % e + e * (bits / h / e))
  {}

  lemma SplitFields(bits: nat, w: FloatWidth)
    requires w.exponents > 0
    ensures var p := Split(bits, w);
            && (p.f < p.hidden <==> Biased(bits, w) == 0)
            && Fraction(bits, w) == (if p.f < p.hidden then p.f else p.f - p.hidden)
            && Biased(bits, w) == (if p.f < p.hidden then 0 else p.e + w.bias + w.mantissa)
            && p.negative == (SignBit(bits, w) != 0)
  {
    FractionBound(bits, w);
    hide Pow, Fraction, Biased, SignBit;
  }

  /** Different bits with the sign above the exponent have different parts. */
  lemma SplitInjective(a: nat, b: nat, w: FloatWidth)
    requires w.exponents > 0 && SignBit(a, w) <= 1 && SignBit(b, w) <= 1 && Split(a, w) == Split(b, w)
    ensures a == b
  {
    SplitFields(a, w);
    SplitFields(b, w);
    Recompose(a, Pow(2, w.mantissa), w.exponents);
    Recompose(b, Pow(2, w.mantissa), w.exponents);
    hide Pow, Split;
  }

  /** The parts of the next float up: one more unit, or the first significand of the next binade. */
  function NextUp(p: FloatParts): FloatParts {
    if p.f + 1 < 2 * p.hidden then p.(f := p.f + 1) else p.(f := p.hidden, e := p.e + 1)
  }

  lemma NextField(n: nat, e: nat)
    requires e > 0
    ensures if n % e + 1 < e then (n + 1) % e == n % e + 1 && (n + 1) / e == n / e else (n + 1) % e == 0 && (n + 1) / e == n / e + 1
  {
    var q, r := n / e, n % e;
    assert n == e * q + r;
    if r + 1 < e {
      FieldIs(n + 1, q, r + 1, e);
    } else {
      assert n + 1 == e * (q + 1);
      FieldIs(n + 1, q + 1, 0, e);
    }
  }

  lemma FieldIs(n: nat, q: nat, r: nat, e: nat)
    requires r < e && n == e * q + r
    ensures n / e == q && n % e == r
  {
    SameSplit(n / e, n % e, q, r, e) by {
      assert n == e * (n / e) + n % e;
    }
  }

  /** Zero has no bit set; the bits plus one are the next float up, and the bit above the exponent is the sign. */
  lemma NextBits(bits: nat, w: FloatWidth)
    requires w.exponents > 1 && SignBit(bits, w) == 0
    ensures Split(0, w) == FloatParts(false, 0, 1 - w.bias - w.mantissa, 1 - w.bias - w.mantissa, Pow(2, w.mantissa))
    ensures SignBit(bits + 1, w) == 0 ==> Split(bits + 1, w) == NextUp(Split(bits, w))
    ensures Split(bits + Pow(2, w.mantissa) * w.exponents, w) == Split(bits, w).(negative := true)
  {
    hide Pow;
    var h, e := Pow(2, w.mantissa), w.exponents;
    ZeroFields(h, e);
    NextField(bits, h);
    NextField(bits / h, e);
    SignField(bits, h, e);
  }

  lemma ZeroFields(h: nat, e: nat)
    requires h > 0 && e > 0
    ensures 0 % h == 0 && 0 / h == 0 && 0 % e == 0 && 0 / e == 0
  {}

  lemma SignField(bits: nat, h: nat, e: nat)
    requires h > 0 && e > 0 && bits / h / e == 0
    ensures var n := bits + h * e; n % h == bits % h && n / h % e == bits / h % e && n / h / e == 1
  {
    var q := bits / h;
    assert bits == h * q + bits % h;
    assert h * (q + e) == h * q + h * e;
    FieldIs(bits + h * e, q + e, bits % h, h);
    assert q == e * 0 + q % e;
    FieldIs(q + e, 1, q % e, e);
  }

  // ----- `shortest`, and the round trip -----

  function SignOf(negative: bool): string {
    if negative then "-" else ""
  }

  /** The sign, then groups that denote shortest digits of the value, in the form that their size asks for. */
  ghost predicate PrintsAs(p: FloatParts, text: string, ds: string, k: int, g: Parts)
    requires p.f >= 1
  {
    && IsShortest(p, ds, k) && g.Valid() && text == SignOf(p.negative) + g.Text('e')
    && Same(g.Value(), Decimal(NatOf(ds), k - |ds|)) && Formed(g, k - 1)
  }

  ghost predicate Prints(p: FloatParts, text: string)
    requires p.f >= 1
  {
    exists ds, k, g :: PrintsAs(p, text, ds, k, g)
  }

  /** Shortest digits end with no zero. */
  lemma ShortestTrimmed(p: FloatParts, ds: string, k: int)
    requires p.f >= 1 && IsShortest(p, ds, k)
    ensures ds[|ds| - 1] != '0'
  {
    var n := |ds| - 1;
    if n > 0 && ds[n] == '0' {
      var m := NatOf(ds[..n]);
      assert NatOf(ds) == 10 * m;
      NatOfBound(ds[..n]);
      hide Pow, NatOf, Same, FloatParts.Inside, LeastExponent, ClosestOnGrid;
      TenFold(m, k - n);
      InsideThrough(p, Decimal(m, k - n), Decimal(10 * m, k - n - 1));
      assert false;
    }
  }

  lemma TenFold(m: nat, j: int)
    ensures Same(Decimal(m, j), Decimal(10 * m, j - 1))
  {
    assert Pow(10, 1) == 10;
    hide Pow, Same;
    ScaleRefine(m, 10, j, j - 1);
  }

  /** The first of shortest digits counts 10^(k - 1): the number they write lies from there to below 10^k. */
  lemma ShortestLeads(p: FloatParts, ds: string, k: int)
    requires p.f >= 1 && IsShortest(p, ds, k)
    ensures AtMost(Decimal(1, k - 1), Decimal(NatOf(ds), k - |ds|)) && Less(Decimal(NatOf(ds), k - |ds|), Decimal(1, k))
  {
    NatOfBound(ds);
    NatOfLeads(ds);
    hide Pow, NatOf, Same, FloatParts.Inside, LeastExponent, ClosestOnGrid, NoneShorter, Less, AtMost, Scale;
    var d, q := NatOf(ds), k - |ds|;
    ScaleRefine(1, 10, k - 1, q);
    ScaleRefine(1, 10, k, q);
    ScaleOrder(1 * Pow(10, |ds| - 1), d, 10, q);
    ScaleOrder(d, 1 * Pow(10, |ds|), 10, q);
    LessThrough(Decimal(d, q), Decimal(1, k - 1), Decimal(1 * Pow(10, |ds| - 1), q));
    LessThrough(Decimal(d, q), Decimal(1, k), Decimal(1 * Pow(10, |ds|), q));
  }

  /** A printed text holds an 'e' exactly when its number is below 10^-6 or not below 10^21. */
  lemma PrintsExponent(p: FloatParts, text: string, ds: string, k: int, g: Parts)
    requires p.f >= 1 && PrintsAs(p, text, ds, k, g)
    ensures 'e' in text <==> !(-6 <= k - 1 < 21)
    ensures AtMost(Decimal(1, k - 1), g.Value()) && Less(g.Value(), Decimal(1, k))
  {
    hide LeastExponent, FloatParts.Inside, NoneShorter, ClosestOnGrid, Same, Less, AtMost, NatOf, Decimal;
    hide Parts.Text, Parts.Value, AllDigits, Trimmed, Signed, PowerOf, Plain;
    PowerShows(g);
    ShortestLeads(p, ds, k);
    LessThrough(Decimal(1, k - 1), g.Value(), Decimal(NatOf(ds), k - |ds|));
    LessThrough(Decimal(1, k), g.Value(), Decimal(NatOf(ds), k - |ds|));
  }

  // ----- a value has one printed text -----

  lemma TensOrder(j: int, k: int)
    requires j <= k
    ensures AtMost(Decimal(1, j), Decimal(1, k))
  {
    hide Pow, Same, AtMost, Less, Scale;
    ScaleRefine(1, 10, k, j);
    ScaleOrder(1, 1 * Pow(10, k - j), 10, j);
    LessThrough(Decimal(1, j), Decimal(1, k), Decimal(1 * Pow(10, k - j), j));
  }

  lemma ExponentNot(p: FloatParts, k: int, l: int)
    requires p.f >= 1 && LeastExponent(p, k) && k < l
    ensures !LeastExponent(p, l)
  {
    hide FloatParts.High, Less, AtMost, Decimal;
    TensOrder(k, l - 1);
    LessAtMost(p.High(), Decimal(1, k));
    LessAtMost(Decimal(1, l - 1), p.High());
    LessAtMost(p.High(), Decimal(1, l - 1));
    if AtMost(p.High(), Decimal(1, k)) {
      LessTrans(p.High(), Decimal(1, k), Decimal(1, l - 1));
    }
  }

  lemma ShorterNot(p: FloatParts, ds: string, k: int, es: string, l: int)
    requires p.f >= 1 && IsShortest(p, ds, k) && IsShortest(p, es, l)
    ensures |ds| >= |es|
  {
    NatOfBound(ds);
    hide Pow, NatOf, FloatParts.Inside, LeastExponent, ClosestOnGrid, Decimal;
    if |ds| < |es| {
      PowMono(10, |ds|, |es| - 1);
      assert false;
    }
  }

  lemma BetweenInside(p: FloatParts, d: nat, m: nat, e: nat, q: int)
    requires p.f >= 1 && d <= m <= e && p.Inside(Decimal(d, q)) && p.Inside(Decimal(e, q))
    ensures p.Inside(Decimal(m, q))
  {
    hide FloatParts.Low, FloatParts.High, Less, AtMost, Scale;
    var x, y, z := Decimal(d, q), Decimal(m, q), Decimal(e, q);
    ScaleOrder(d, m, 10, q);
    ScaleOrder(m, e, 10, q);
    LessAtMost(p.Low(), x);
    LessAtMost(z, p.High());
    LessTrans(p.Low(), x, y);
    LessTrans(y, z, p.High());
  }

  /** Of two equally far points at least two steps apart, neither is as near as the next one between. */
  lemma Midway(d: int, e: int, s: int, h: int)
    requires d + 2 <= e && s > 0 && Abs(d * s - h) == Abs(e * s - h)
    ensures Abs((d + 1) * s - h) < Abs(d * s - h)
  {
    MulStrict(d, e, s);
    Spread(d, 1, s);
    MulMono(d + 2, e, s);
    Spread(d, 2, s);
  }

  lemma NearestOne(p: FloatParts, d: nat, e: nat, q: int)
    requires p.f >= 1 && p.Inside(Decimal(d, q)) && p.Inside(Decimal(e, q)) && ClosestOnGrid(p, d, q) && ClosestOnGrid(p, e, q)
    ensures d >= e
  {
    hide FloatParts.Inside, FloatParts.Value, Pow, Nearer, Scale;
    if d < e {
      var v, a, b := p.Value(), Neg(q), Pos(q);
      var s := v.den * Pow(10, b);
      BetweenInside(p, d, d + 1, e, q);
      NearerOnGrid(v.num, v.den, d, e, 10, a, b);
      NearerOnGrid(v.num, v.den, e, d, 10, a, b);
      NearerOnGrid(v.num, v.den, d, d + 1, 10, a, b);
      MulStrict(0, v.den, Pow(10, b));
      hide Abs;
      Midway(d, e, s, v.num * Pow(10, a));
      assert false;
    }
  }

  /** The digits and the exponent are the only ones. */
  lemma ShortestOne(p: FloatParts, ds: string, k: int, es: string, l: int)
    requires p.f >= 1 && IsShortest(p, ds, k) && IsShortest(p, es, l)
    ensures ds == es && k == l
  {
    hide NatOf, FloatParts.Inside, ClosestOnGrid, NoneShorter, LeastExponent, Decimal;
    if k < l {
      ExponentNot(p, k, l);
    } else if l < k {
      ExponentNot(p, l, k);
    }
    ShorterNot(p, ds, k, es, l);
    ShorterNot(p, es, l, ds, k);
    NearestOne(p, NatOf(ds), NatOf(es), k - |ds|);
    NearestOne(p, NatOf(es), NatOf(ds), k - |ds|);
    NatOfInjective(ds, es);
  }

  /** A value prints as one text only. */
  lemma PrintsOne(p: FloatParts, text: string, other: string)
    requires p.f >= 1 && Prints(p, text) && Prints(p, other)
    ensures text == other
  {
    hide IsShortest, Formed, Same, NatOf, Decimal, Parts.Text, Parts.Value, Parts.Valid;
    var ds, k, g :| PrintsAs(p, text, ds, k, g);
    var es, l, h :| PrintsAs(p, other, es, l, h);
    ShortestOne(p, ds, k, es, l);
    ShortestDigits(p, ds, k);
    var x := Decimal(NatOf(ds), k - |ds|);
    SameSymmetric(h.Value(), x);
    SameTrans(g.Value(), x, h.Value());
    FormedOne(g, h, k - 1);
  }

  lemma ShortestDigits(p: FloatParts, ds: string, k: int)
    requires p.f >= 1 && IsShortest(p, ds, k)
    ensures AllDigits(ds)
  {}

  /** A value: a NaN, an infinity, or a finite value of either sign, zero included. */
  datatype Number = NotANumber | Infinite(negative: bool) | Numeral(parts: FloatParts)

  /** `shortest` (host/float.ts:147-173); the 64-bit path asks the platform for the same digits. */
  method Shortest(value: Number, estimate: int) returns (text: string)
    ensures match value {
      case NotANumber => text == "NaN"
      case Infinite(negative) => text == if negative then "-inf" else "inf"
      case Numeral(p) => if p.f == 0 then text == (if p.negative then "-0.0" else "0.0") else Prints(p, text)
    }
  {
    match value {
      case NotANumber => return "NaN";
      case Infinite(negative) => return SignOf(negative) + "inf";
      case Numeral(p) =>
        if p.f == 0 {
          return SignOf(p.negative) + "0.0";
        }
        var ds, k := Digits(p, estimate);
        text := Layout(SignOf(p.negative), ds, k - 1);
        LayoutPrints(p, ds, k);
    }
  }

  /** The layout of shortest digits is such a text. */
  lemma LayoutPrints(p: FloatParts, ds: string, k: int)
    requires p.f >= 1 && IsShortest(p, ds, k)
    ensures Prints(p, Layout(SignOf(p.negative), ds, k - 1))
  {
    hide Layout, LayoutParts, Formed, Same, NatOf, Parts.Text, Parts.Value, Parts.Valid;
    ShortestTrimmed(p, ds, k);
    LayoutSign(SignOf(p.negative), ds, k - 1);
    LayoutWrites(ds, k - 1);
    LayoutFormed(ds, k - 1);
    var g := LayoutParts(ds, k - 1);
    assert PrintsAs(p, Layout(SignOf(p.negative), ds, k - 1), ds, k, g);
  }

  lemma LayoutSign(sign: string, ds: string, exponent: int)
    requires ds != ""
    ensures Layout(sign, ds, exponent) == sign + Layout("", ds, exponent)
  {
    hide Zeros, NatText;
    var t := Layout("", ds, exponent);
    assert "" + t == t;
    if -6 <= exponent < 21 {
      if exponent < 0 {
        var u := "0" + ("." + (Zeros(-exponent - 1) + ds));
        assert "" + u == u;
      } else {
        var whole := if |ds| > exponent + 1 then ds[..exponent + 1] else ds + Zeros(exponent + 1 - |ds|);
        var rest := if |ds| > exponent + 1 then ds[exponent + 1..] else "";
        var u := whole + ("." + (if rest == "" then "0" else rest));
        assert "" + u == u;
      }
    } else {
      var mantissa := if |ds| > 1 then ds[..1] + ("." + ds[1..]) else ds;
      var u := mantissa + ("e" + ((if exponent < 0 then "-" else "+") + NatText(Abs(exponent))));
      assert "" + u == u;
    }
  }

  /** Any text of the shortest digits reads back as the float. */
  lemma ShortestReadsBack(p: FloatParts, ds: string, k: int, x: Ratio, r: Float64)
    requires FiniteFloat64(p) && IsShortest(p, ds, k)
    requires Same(x, Decimal(NatOf(ds), k - |ds|)) && Rounded(x, r)
    ensures r == Finite(p.f, p.e)
  {
    hide FloatParts.Inside, Rounded, Same;
    InsideThrough(p, x, Decimal(NatOf(ds), k - |ds|));
    InsideRounds(p, x);
    RoundedUnique(x, r, Finite(p.f, p.e));
  }

  /** Printing a positive finite float and reading the text back gives the float again. */
  method PrintThenRead(p: FloatParts, estimate: int) returns (back: Result<Float64>)
    requires FiniteFloat64(p) && !p.negative
    ensures back == Ok(Finite(p.f, p.e))
  {
    hide FloatParts.Inside, Rounded, Same, Match, NoneShorter, ClosestOnGrid, Formed, Parts.Text, Parts.Valid, Parts.Value;
    var text := Shortest(Numeral(p), estimate);
    ghost var ds, k, g :| PrintsAs(p, text, ds, k, g);
    assert text == g.Text('e') by { EmptyPrefix(g.Text('e')); }
    MatchComplete(g, 'e');
    back := Parse(text);
    ShortestReadsBack(p, ds, k, g.Value(), back.value);
  }

  lemma EmptyPrefix(s: string)
    ensures "" + s == s
  {}

  /** No text of fewer significant digits reads back as the float. */
  lemma ShorterReadsElse(p: FloatParts, ds: string, k: int, m: nat, j: int, r: Float64)
    requires FiniteFloat64(p) && IsShortest(p, ds, k)
    requires m < Pow(10, |ds| - 1) && Rounded(Decimal(m, j), r)
    ensures r != Finite(p.f, p.e)
  {
    hide FloatParts.Inside, Rounded, LeastExponent, ClosestOnGrid, Pow, Decimal;
    if r == Finite(p.f, p.e) {
      InsideExactly(p, Decimal(m, j));
      assert false;
    }
  }

  // ----- `fixed` -----

  /** The exact value in units of 10^-places. */
  function Scaled(p: FloatParts, places: nat): Ratio {
    Quotient(p.f * Pow(2, Pos(p.e)) * Pow(10, places), Pow(2, Neg(p.e)))
  }

  lemma ScaledForms(p: FloatParts, places: nat)
    ensures p.e >= 0 ==> HalfEven(p.f * Pow(2, p.e) * Pow(10, places), Scaled(p, places))
    ensures p.e < 0 ==> Scaled(p, places) == Quotient(p.f * Pow(10, places), Pow(2, -p.e))
  {
    assert Pow(2, 0) == 1;
    hide Pow;
  }

  /** The rounding of `fixed` to an integer of units (host/float.ts:205-217). */
  method FixedUnits(p: FloatParts, places: nat) returns (scaled: nat)
    ensures HalfEven(scaled, Scaled(p, places))
  {
    ScaledForms(p, places);
    hide Pow, HalfEven, DividedAs, Scaled;
    if p.e >= 0 {
      scaled := p.f * Pow(2, p.e) * Pow(10, places);
    } else {
      var numerator, denominator := p.f * Pow(10, places), Pow(2, -p.e);
      var quotient, rest := DivMod(numerator, denominator);
      scaled := quotient;
      HalfEvenFrom(quotient, rest, Quotient(numerator, denominator));
      var twice := rest * 2;
      if twice > denominator || (twice == denominator && scaled % 2 == 1) {
        scaled := scaled + 1;
      }
    }
  }

  /** `padStart` with zeros. */
  function PadStart(s: string, n: nat): (r: string)
    requires AllDigits(s)
    ensures AllDigits(r) && NatOf(r) == NatOf(s) && |r| == (if |s| < n then n else |s|)
    ensures |s| >= n ==> r == s
  {
    if |s| < n then
      LeadingZeros(n - |s|, s);
      Zeros(n - |s|) + s
    else s
  }

  /** The sign, digits with no spare leading zero, and `places` digits of fraction after a point if there are any. */
  predicate IsFixed(negative: bool, places: nat, digits: string, text: string) {
    && places < |digits| && AllDigits(digits) && (|digits| > places + 1 ==> digits[0] != '0')
    && var n := |digits| - places;
      text == (if negative then "-" else "") + digits[..n] + (if places > 0 then "." + digits[n..] else "")
  }

  /** `fixed` (host/float.ts:194-221): the nearest multiple of 10^-places, ties to even. */
  method Fixed(value: Number, places: nat) returns (text: string)
    ensures match value {
      case NotANumber => text == "NaN"
      case Infinite(negative) => text == if negative then "-inf" else "inf"
      case Numeral(p) =>
        exists digits :: IsFixed(p.negative, places, digits, text) && HalfEven(NatOf(digits), Scaled(p, places))
    }
  {
    hide Pow, HalfEven, Scaled, PadStart, NatText, NatOf;
    match value {
      case NotANumber => return "NaN";
      case Infinite(negative) => return SignOf(negative) + "inf";
      case Numeral(p) =>
        var scaled := FixedUnits(p, places);
        var digits := PadStart(NatText(scaled), places + 1);
        var n := |digits| - places;
        text := SignOf(p.negative) + digits[..n] + (if places > 0 then "." + digits[n..] else "");
        assert IsFixed(p.negative, places, digits, text);
    }
  }
}
