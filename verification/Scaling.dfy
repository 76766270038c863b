/** USD prices as decimal strings, scaled to the contract's fixed point. */
module Scaling {
  import opened Basics
  import opened Decimals

  datatype PriceError = NotDecimal | NotPositive | ExceedsUint64 | ZeroRatio

  const PRICE_DECIMALS: nat := 10
  const UINT64_MAX: nat := 0xFFFF_FFFF_FFFF_FFFF
  const WAD: nat := 1_000_000_000_000_000_000

  predicate IsDigit(c: char) {
    '0' <= c <= '9'
  }

  predicate AllDigits(s: string) {
    forall i | 0 <= i < |s| :: IsDigit(s[i])
  }

  /** White space and line terminators, as string trimming knows them. */
  predicate IsSpace(c: char) {
    || '\U{0009}' <= c <= '\U{000D}' || c == ' ' || c == '\U{00A0}' || c == '\U{1680}'
    || '\U{2000}' <= c <= '\U{200A}' || c == '\U{2028}' || c == '\U{2029}'
    || c == '\U{202F}' || c == '\U{205F}' || c == '\U{3000}' || c == '\U{FEFF}'
  }

  predicate AllSpace(s: string) {
    forall i | 0 <= i < |s| :: IsSpace(s[i])
  }

  // ---- Reading the string ----

  function TrimLeft(s: string): string {
    if s != "" && IsSpace(s[0]) then TrimLeft(s[1..]) else s
  }

  function TrimRight(s: string): string {
    if s != "" && IsSpace(s[|s| - 1]) then TrimRight(s[..|s| - 1]) else s
  }

  function Trim(s: string): string {
    TrimRight(TrimLeft(s))
  }

  function LeadingDigits(s: string): (k: nat)
    ensures k <= |s| && AllDigits(s[..k])
    ensures k < |s| ==> !IsDigit(s[k])
  {
    if s != "" && IsDigit(s[0]) then
      var k := LeadingDigits(s[1..]);
      assert s[..k + 1] == [s[0]] + s[1..][..k];
      k + 1
    else 0
  }

  datatype Parts = Parts(whole: string, frac: string)

  /** Digits, then optionally a point and more digits, and nothing else. */
  function Match(s: string): (m: Option<Parts>)
    ensures m.Some? ==> AllDigits(m.value.whole) && AllDigits(m.value.frac) && m.value.whole != ""
  {
    var k := LeadingDigits(s);
    if k == 0 then None
    else if k == |s| then Some(Parts(s, ""))
    else if s[k] == '.' && k + 1 < |s| && AllDigits(s[k + 1..]) then Some(Parts(s[..k], s[k + 1..]))
    else None
  }

  function DigitValue(c: char): (d: nat)
    requires IsDigit(c)
    ensures d <= 9
  {
    c as int - '0' as int
  }

  /** The number a run of digits writes. */
  function Value(s: string): nat
    requires AllDigits(s)
  {
    if s == "" then 0 else 10 * Value(s[..|s| - 1]) + DigitValue(s[|s| - 1])
  }

  function Zeros(n: nat): (z: string)
    ensures |z| == n && AllDigits(z)
  {
    seq(n, _ => '0')
  }

  /** Keep `decimals` fraction digits, padding with zeros or rounding on the first one dropped. */
  function ScaleParts(p: Parts, decimals: nat): nat
    requires AllDigits(p.whole) && AllDigits(p.frac)
  {
    if |p.frac| > decimals then
      var scaled := Value(p.whole + p.frac[..decimals]);
      if DigitValue(p.frac[decimals]) >= 5 then scaled + 1 else scaled
    else
      Value(p.whole + p.frac + Zeros(decimals - |p.frac|))
  }

  function ScaleDecimalString(raw: string, decimals: nat): Result<nat, PriceError> {
    match Match(Trim(raw))
    case None => Err(NotDecimal)
    case Some(parts) => Ok(ScaleParts(parts, decimals))
  }

  // ---- Which strings are accepted ----

  /** The text of a non-negative decimal: a fraction, when there is one, is not empty. */
  function Written(p: Parts): string {
    if p.frac == "" then p.whole else p.whole + "." + p.frac
  }

  predicate WellFormed(p: Parts) {
    p.whole != "" && AllDigits(p.whole) && AllDigits(p.frac)
  }

  /** `raw` is the decimal p between white space. */
  predicate Reads(raw: string, left: string, p: Parts, right: string) {
    AllSpace(left) && WellFormed(p) && AllSpace(right) && raw == left + Written(p) + right
  }

  lemma {:induction false} TrimLeftDrops(left: string, s: string)
    requires AllSpace(left) && s != "" && !IsSpace(s[0])
    ensures TrimLeft(left + s) == s
  {
    if left == "" {
      assert left + s == s;
    } else {
      assert (left + s)[1..] == left[1..] + s;
      TrimLeftDrops(left[1..], s);
    }
  }

  lemma {:induction false} TrimRightDrops(s: string, right: string)
    requires AllSpace(right) && s != "" && !IsSpace(s[|s| - 1])
    ensures TrimRight(s + right) == s
  {
    if right == "" {
      assert s + right == s;
    } else {
      var shorter := right[..|right| - 1];
      assert (s + right)[..|s + right| - 1] == s + shorter;
      TrimRightDrops(s, shorter);
    }
  }

  lemma {:induction false} TrimLeftSplits(s: string) returns (left: string)
    ensures AllSpace(left) && s == left + TrimLeft(s)
  {
    left := "";
    if s != "" && IsSpace(s[0]) {
      var rest := TrimLeftSplits(s[1..]);
      left := [s[0]] + rest;
      assert s == [s[0]] + s[1..];
    }
  }

  lemma {:induction false} TrimRightSplits(s: string) returns (right: string)
    ensures AllSpace(right) && s == TrimRight(s) + right
  {
    right := "";
    if s != "" && IsSpace(s[|s| - 1]) {
      var rest := TrimRightSplits(s[..|s| - 1]);
      right := rest + [s[|s| - 1]];
      assert s == s[..|s| - 1] + [s[|s| - 1]];
    }
  }

  lemma {:induction false} LeadingDigitsOf(whole: string, rest: string)
    requires AllDigits(whole) && (rest == "" || !IsDigit(rest[0]))
    ensures LeadingDigits(whole + rest) == |whole|
  {
    if whole == "" {
      assert whole + rest == rest;
    } else {
      assert (whole + rest)[1..] == whole[1..] + rest;
      LeadingDigitsOf(whole[1..], rest);
    }
  }

  lemma MatchWritten(p: Parts)
    requires WellFormed(p)
    ensures Match(Written(p)) == Some(p)
  {
    var s := Written(p);
    if p.frac == "" {
      LeadingDigitsOf(p.whole, "");
      assert p.whole + "" == p.whole;
    } else {
      LeadingDigitsOf(p.whole, "." + p.frac);
      assert s == p.whole + ("." + p.frac);
      assert s[|p.whole| + 1..] == p.frac;
      assert s[..|p.whole|] == p.whole;
    }
  }

  /** Any well-formed decimal between any white space is read as its two digit runs. */
  lemma ReadsWritten(left: string, p: Parts, right: string)
    requires AllSpace(left) && WellFormed(p) && AllSpace(right)
    ensures Match(Trim(left + Written(p) + right)) == Some(p)
  {
    var s := Written(p);
    assert s != "" && IsDigit(s[0]) && IsDigit(s[|s| - 1]);
    assert left + s + right == left + (s + right);
    TrimLeftDrops(left, s + right);
    TrimRightDrops(s, right);
    MatchWritten(p);
  }

  /** Nothing else is accepted. */
  lemma AcceptsOnlyWritten(raw: string) returns (left: string, right: string)
    requires Match(Trim(raw)).Some?
    ensures Reads(raw, left, Match(Trim(raw)).value, right)
  {
    left := TrimLeftSplits(raw);
    right := TrimRightSplits(TrimLeft(raw));
    var s := Trim(raw);
    var p := Match(s).value;
    var k := LeadingDigits(s);
    if k < |s| {
      assert s == s[..k] + "." + s[k + 1..];
    }
    assert s == Written(p);
    assert raw == left + (s + right);
  }

  // ---- What number comes out ----

  lemma AppendDigit(v: int, p: int, low: int, d: int)
    ensures 10 * (v * p + low) + d == v * (10 * p) + (10 * low + d)
  {
  }

  lemma {:induction false} ValueAppend(x: string, y: string)
    requires AllDigits(x) && AllDigits(y)
    ensures AllDigits(x + y)
    ensures Value(x + y) == Value(x) * Pow10(|y|) + Value(y)
  {
    if y == "" {
      assert x + y == x;
    } else {
      var shorter, last := y[..|y| - 1], DigitValue(y[|y| - 1]);
      assert (x + y)[..|x + y| - 1] == x + shorter;
      ValueAppend(x, shorter);
      var v, p, low := Value(x), Pow10(|shorter|), Value(shorter);
      assert Value(x + y) == 10 * (v * p + low) + last;
      AppendDigit(v, p, low, last);
      assert Pow10(|y|) == 10 * p && Value(y) == 10 * low + last;
    }
  }

  lemma {:induction false} ValueBound(s: string)
    requires AllDigits(s)
    ensures Value(s) < Pow10(|s|)
  {
    if s != "" {
      ValueBound(s[..|s| - 1]);
    }
  }

  lemma {:induction false} ValueZeros(n: nat)
    ensures Value(Zeros(n)) == 0
  {
    if n > 0 {
      assert Zeros(n)[..n - 1] == Zeros(n - 1);
      ValueZeros(n - 1);
    }
  }

  /** The first dropped digit decides on which side of one half the dropped digits lie. */
  lemma FirstDigitDecides(s: string)
    requires s != "" && AllDigits(s)
    ensures DigitValue(s[0]) >= 5 <==> 2 * Value(s) >= Pow10(|s|)
  {
    var first, rest := s[..1], s[1..];
    assert s == first + rest;
    ValueAppend(first, rest);
    ValueBound(rest);
    assert first[..0] == "";
    assert Value(first) == DigitValue(s[0]);
    var d, unit := DigitValue(s[0]), Pow10(|rest|);
    assert Pow10(|s|) == 10 * unit;
    if d >= 5 {
      MulMono(5, d, unit);
    } else {
      MulMono(d, 4, unit);
    }
  }

  /** R is n * 10^d / 10^l rounded to the nearest integer, halves up. */
  predicate HalfUp(R: nat, n: nat, d: nat, l: nat) {
    2 * (R * Pow10(l)) <= 2 * (n * Pow10(d)) + Pow10(l) < 2 * ((R + 1) * Pow10(l))
  }

  lemma MulAssoc(x: int, y: int, z: int)
    ensures x * y * z == x * (y * z)
  {
  }

  lemma MulSpread(x: int, y: int, z: int)
    ensures (x + y) * z == x * z + y * z
  {
  }

  lemma RoundCut(R: nat, high: nat, low: nat, cut: nat, unit: nat)
    requires low < cut && unit > 0
    requires R == if 2 * low >= cut then high + 1 else high
    ensures 2 * (R * (cut * unit)) <= 2 * ((high * cut + low) * unit) + cut * unit < 2 * ((R + 1) * (cut * unit))
  {
    var whole, n := R * cut, high * cut + low;
    MulNext(high, cut);
    assert 2 * whole <= 2 * n + cut < 2 * (whole + cut);
    MulMono(2 * whole, 2 * n + cut, unit);
    MulMono(2 * n + cut + 1, 2 * (whole + cut), unit);
    MulNext(2 * n + cut, unit);
    MulSpread(2 * n, cut, unit);
    MulAssoc(2, n, unit);
    MulAssoc(2, whole, unit);
    MulAssoc(2, whole + cut, unit);
    MulSpread(whole, cut, unit);
    MulAssoc(R, cut, unit);
    MulNext(R, cut * unit);
  }

  lemma RoundExact(n: nat, d: nat, l: nat)
    requires l <= d
    ensures HalfUp(n * Pow10(d - l), n, d, l)
  {
    PowAdd(d - l, l);
    MulAssoc(n, Pow10(d - l), Pow10(l));
    MulNext(n * Pow10(d - l), Pow10(l));
  }

  lemma ScaleCut(p: Parts, decimals: nat)
    requires WellFormed(p) && |p.frac| > decimals
    ensures AllDigits(p.whole + p.frac)
    ensures HalfUp(ScaleParts(p, decimals), Value(p.whole + p.frac), decimals, |p.frac|)
  {
    var kept, cut := p.whole + p.frac[..decimals], p.frac[decimals..];
    assert p.whole + p.frac == kept + cut;
    ValueAppend(kept, cut);
    ValueBound(cut);
    FirstDigitDecides(cut);
    RoundCut(ScaleParts(p, decimals), Value(kept), Value(cut), Pow10(|cut|), Pow10(decimals));
    PowAdd(|cut|, decimals);
  }

  lemma ScalePad(p: Parts, decimals: nat)
    requires WellFormed(p) && |p.frac| <= decimals
    ensures AllDigits(p.whole + p.frac)
    ensures HalfUp(ScaleParts(p, decimals), Value(p.whole + p.frac), decimals, |p.frac|)
  {
    var zeros := Zeros(decimals - |p.frac|);
    ValueAppend(p.whole + p.frac, zeros);
    ValueZeros(decimals - |p.frac|);
    RoundExact(Value(p.whole + p.frac), decimals, |p.frac|);
  }

  /** Scaling digit runs of any length is the exact half-up rounding of the number they write. */
  lemma ScaleRoundsHalfUp(p: Parts, decimals: nat)
    requires WellFormed(p)
    ensures AllDigits(p.whole + p.frac)
    ensures HalfUp(ScaleParts(p, decimals), Value(p.whole + p.frac), decimals, |p.frac|)
  {
    if |p.frac| > decimals {
      ScaleCut(p, decimals);
    } else {
      ScalePad(p, decimals);
    }
  }

  /** There is one such rounding. */
  lemma HalfUpUnique(R: nat, Q: nat, n: nat, d: nat, l: nat)
    requires HalfUp(R, n, d, l) && HalfUp(Q, n, d, l)
    ensures R == Q
  {
    var unit := Pow10(l);
    if R < Q {
      MulMono(R + 1, Q, unit);
    } else if Q < R {
      MulMono(Q + 1, R, unit);
    }
  }

  /** A string is accepted exactly when it is a well-formed decimal between white space. */
  lemma AcceptedIffDecimal(raw: string, decimals: nat)
    ensures ScaleDecimalString(raw, decimals).Ok? <==> exists left, p, right :: Reads(raw, left, p, right)
  {
    if Match(Trim(raw)).Some? {
      var left, right := AcceptsOnlyWritten(raw);
      assert Reads(raw, left, Match(Trim(raw)).value, right);
    }
    forall left, p, right | Reads(raw, left, p, right)
      ensures ScaleDecimalString(raw, decimals).Ok?
    {
      ReadsWritten(left, p, right);
    }
  }

  /** The answer for such a string is the half-up rounding of what it writes, and no other number. */
  lemma ScaledIffHalfUp(raw: string, left: string, p: Parts, right: string, decimals: nat, R: nat)
    requires Reads(raw, left, p, right)
    ensures ScaleDecimalString(raw, decimals) == Ok(R) <==>
      HalfUp(R, Value(p.whole + p.frac), decimals, |p.frac|)
  {
    ReadsWritten(left, p, right);
    ScaleRoundsHalfUp(p, decimals);
    if HalfUp(R, Value(p.whole + p.frac), decimals, |p.frac|) {
      HalfUpUnique(R, ScaleParts(p, decimals), Value(p.whole + p.frac), decimals, |p.frac|);
    }
  }

  /** The characters: ten digits with their values, and the white space of string trimming by code point. */
  lemma CharacterTable(c: char)
    ensures IsDigit(c) <==> 48 <= c as int <= 57
    ensures IsDigit(c) ==> DigitValue(c) == c as int - 48
    ensures IsSpace(c) <==>
      || 9 <= c as int <= 13 || c as int == 32 || c as int == 160 || c as int == 5760 || 8192 <= c as int <= 8202
      || c as int == 8232 || c as int == 8233 || c as int == 8239 || c as int == 8287 || c as int == 12288 || c as int == 65279
  {
  }

  // ---- Prices and their ratio ----

  function UsdToScaled(price: string): (r: Result<nat, PriceError>)
    ensures r.Ok? ==> 1 <= r.value <= 0xFFFF_FFFF_FFFF_FFFF
  {
    match ScaleDecimalString(price, PRICE_DECIMALS)
    case Err(e) => Err(e)
    case Ok(scaled) =>
      if scaled <= 0 then Err(NotPositive)
      else if scaled > UINT64_MAX then Err(ExceedsUint64)
      else Ok(scaled)
  }

  function UsdRatioWad(numerator: string, denominator: string): Result<nat, PriceError> {
    var num := UsdToScaled(numerator);
    if num.Err? then Err(num.error) else
    var den := UsdToScaled(denominator);
    if den.Err? then Err(den.error) else
    var ratio := num.value * WAD / den.value;
    if ratio <= 0 then Err(ZeroRatio) else Ok(ratio)
  }

  /** The ratio is the wad quotient rounded down; it is refused exactly when that is zero. */
  lemma RatioBounds(numerator: string, denominator: string)
    ensures UsdToScaled(numerator).Ok? && UsdToScaled(denominator).Ok? ==>
      var num, den := UsdToScaled(numerator).value, UsdToScaled(denominator).value;
      match UsdRatioWad(numerator, denominator)
      case Ok(r) => r > 0 && r * den <= num * 1_000_000_000_000_000_000 < (r + 1) * den
      case Err(e) => e == ZeroRatio && num * 1_000_000_000_000_000_000 < den
    ensures UsdToScaled(numerator).Err? ==> UsdRatioWad(numerator, denominator) == UsdToScaled(numerator)
    ensures UsdToScaled(numerator).Ok? && UsdToScaled(denominator).Err? ==>
      UsdRatioWad(numerator, denominator) == UsdToScaled(denominator)
  {
    if UsdToScaled(numerator).Ok? && UsdToScaled(denominator).Ok? {
      var num, den := UsdToScaled(numerator).value, UsdToScaled(denominator).value;
      DivBounds(num * WAD, den);
      var q := num * WAD / den;
      MulNext(q, den);
      if q < 0 {
        MulMono(q + 1, 0, den);
      } else if q == 0 {
        assert q * den == 0;
      }
    }
  }

  lemma RoundsToZero(n: nat, d: nat, l: nat)
    requires HalfUp(0, n, d, l)
    ensures 2 * (n * Pow10(d)) < Pow10(l)
  {
  }

  lemma RoundsPast(R: nat, n: nat, d: nat, l: nat, bound: nat)
    requires HalfUp(R, n, d, l) && R > bound
    ensures 2 * (n * Pow10(d)) + Pow10(l) >= 2 * ((bound + 1) * Pow10(l))
  {
    MulMono(bound + 1, R, Pow10(l));
  }

  /** A price under half a unit of the scale is refused like zero, one past uint64 for its size; any other is rounded. */
  lemma PriceOutcome(price: string, left: string, p: Parts, right: string)
    requires Reads(price, left, p, right)
    ensures var n, l := Value(p.whole + p.frac), |p.frac|;
      match UsdToScaled(price)
      case Ok(r) => HalfUp(r, n, 10, l) && 1 <= r <= 0xFFFF_FFFF_FFFF_FFFF
      case Err(NotPositive) => 2 * (n * Pow10(10)) < Pow10(l)
      case Err(ExceedsUint64) => 2 * (n * Pow10(10)) + Pow10(l) >= 2 * (0x1_0000_0000_0000_0000 * Pow10(l))
      case Err(_) => false
  {
    var n, l := Value(p.whole + p.frac), |p.frac|;
    ReadsWritten(left, p, right);
    ScaleRoundsHalfUp(p, PRICE_DECIMALS);
    var scaled := ScaleParts(p, PRICE_DECIMALS);
    if scaled == 0 {
      RoundsToZero(n, PRICE_DECIMALS, l);
    } else if scaled > UINT64_MAX {
      RoundsPast(scaled, n, PRICE_DECIMALS, l, UINT64_MAX);
    }
  }
}
