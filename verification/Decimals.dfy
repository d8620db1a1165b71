/** Numbers as the document holds them, the way the canonical writer spells
    them, and the reader that classifies a spelling back into a number. */
module Decimals {
  import opened Words

  const MAX_SAFE_INTEGER: int := 9_007_199_254_740_991
  const U64_MAX: int := 0xFFFF_FFFF_FFFF_FFFF
  const I64_MIN_MAGNITUDE: int := 0x8000_0000_0000_0000

  /** A finite float is its shortest round-trip decimal: `digits * 10^exp`,
      with no trailing zero in `digits`. */
  datatype Float = NotFinite | Finite(negative: bool, digits: nat, exp: int)

  datatype Number = PosInt(u: nat) | NegInt(i: int) | Decimal(f: Float)

  predicate IsShortest(f: Float) {
    f.Finite? ==> if f.digits == 0 then f.exp == 0 else f.digits % 10 != 0
  }

  predicate WellFormedNumber(n: Number) {
    match n
    case PosInt(u) => u <= U64_MAX
    case NegInt(i) => -I64_MIN_MAGNITUDE <= i < 0
    case Decimal(f) => IsShortest(f)
  }

  predicate IsFinite(n: Number) {
    n.Decimal? ==> n.f.Finite?
  }

  // ---- exact values -------------------------------------------------------

  /** `d` times ten to the `e`, in exact arithmetic. */
  function Scaled(d: nat, e: int): (r: real)
    ensures r >= 0.0 && (d > 0 ==> r > 0.0)
    decreases if e < 0 then -e else e
  {
    if e == 0 then d as real else if e > 0 then 10.0 * Scaled(d, e - 1) else Scaled(d, e + 1) / 10.0
  }

  function Magnitude(f: Float): real
    requires f.Finite?
  {
    Scaled(f.digits, f.exp)
  }

  /** The number a document means, whatever type it arrived in. */
  function Value(n: Number): real
    requires IsFinite(n)
  {
    match n
    case PosInt(u) => u as real
    case NegInt(i) => i as real
    case Decimal(f) => if f.negative then -Magnitude(f) else Magnitude(f)
  }

  /** `d` with `k` zeros appended. */
  function TimesTen(d: nat, k: nat): (v: nat)
    ensures d > 0 ==> v > 0
  {
    if k == 0 then d else 10 * TimesTen(d, k - 1)
  }

  lemma {:induction false} ScaledShift(d: nat, e: int)
    ensures Scaled(10 * d, e) == Scaled(d, e + 1)
    decreases if e < 0 then -e else e
  {
    if e > 0 { ScaledShift(d, e - 1); } else if e < 0 { ScaledShift(d, e + 1); }
  }

  lemma {:induction false} ScaledDown(d: nat, e: int, k: nat)
    ensures Scaled(TimesTen(d, k), e) == Scaled(d, e + k)
    decreases k
  {
    if k > 0 {
      ScaledShift(TimesTen(d, k - 1), e);
      ScaledDown(d, e + 1, k - 1);
    }
  }

  lemma {:induction false} ScaledInjective(a: nat, b: nat, e: int)
    requires Scaled(a, e) == Scaled(b, e)
    ensures a == b
    decreases if e < 0 then -e else e
  {
    if e > 0 { ScaledInjective(a, b, e - 1); } else if e < 0 { ScaledInjective(a, b, e + 1); }
  }

  /** A decimal without trailing zeros is the only one of its value. */
  lemma ShortestIsUnique(d1: nat, e1: int, d2: nat, e2: int)
    requires d1 % 10 != 0 && d2 % 10 != 0
    requires Scaled(d1, e1) == Scaled(d2, e2)
    ensures d1 == d2 && e1 == e2
  {
    if e1 <= e2 { ShortestFrom(d1, e1, d2, e2 - e1); } else { ShortestFrom(d2, e2, d1, e1 - e2); }
  }

  lemma ShortestFrom(d1: nat, e: int, d2: nat, k: nat)
    requires d1 % 10 != 0
    requires Scaled(d1, e) == Scaled(d2, e + k)
    ensures d1 == d2 && k == 0
  {
    ScaledDown(d2, e, k);
    ScaledInjective(d1, TimesTen(d2, k), e);
  }

  // ---- spelling -----------------------------------------------------------

  predicate IsDigit(c: char) { '0' <= c <= '9' }

  ghost predicate AllDigits(s: string) {
    forall i :: 0 <= i < |s| ==> IsDigit(s[i])
  }

  function DigitChar(d: nat): (c: char)
    requires d < 10
    ensures IsDigit(c) && DigitValue(c) == d
  {
    ('0' as int + d) as char
  }

  function DigitValue(c: char): nat
    requires IsDigit(c)
  {
    c as int - '0' as int
  }

  /** Decimal digits, most significant first, no leading zero but for `0`. */
  function NatText(n: nat): (s: string)
    ensures |s| > 0 && AllDigits(s)
    ensures n > 0 ==> s[0] != '0'
    ensures n == 0 ==> s == "0"
  {
    if n < 10 then [DigitChar(n)] else NatText(n / 10) + [DigitChar(n % 10)]
  }

  function Signed(negative: bool, s: string): string {
    if negative then ['-'] + s else s
  }

  function IntText(negative: bool, n: nat): string {
    Signed(negative, NatText(n))
  }

  function Zeros(k: nat): (s: string)
    ensures |s| == k && AllDigits(s)
    ensures forall i :: 0 <= i < k ==> s[i] == '0'
  {
    seq(k, _ => '0')
  }

  /** Rust's `Display` for a float: every digit written out, never an exponent. */
  function PlainDecimal(f: Float): string
    requires f.Finite?
  {
    Signed(f.negative, PlainDigits(NatText(f.digits), f.exp))
  }

  /** The point goes `exp` places into the digits, with zeros wherever there are
      no digits. */
  function PlainDigits(s: string, exp: int): string {
    if exp >= 0 then s + Zeros(exp)
    else if |s| > -exp then s[..|s| + exp] + (['.'] + s[|s| + exp..])
    else "0" + (['.'] + (Zeros(-exp - |s|) + s))
  }

  /** The spelling of a number when nothing refuses it. */
  function NumberText(n: Number): string
    requires IsFinite(n)
  {
    match n
    case PosInt(u) => NatText(u)
    case NegInt(i) => IntText(true, if i < 0 then -i else i)
    case Decimal(f) => if f.digits == 0 then "0" else PlainDecimal(f)
  }

  datatype NumberRefusal = NonFinite | OutOfPlainRange | UnsafeInteger

  const SMALLEST_PLAIN_MAGNITUDE: real := 0.000001
  const LARGEST_PLAIN_MAGNITUDE: real := 1_000_000_000_000_000_000_000.0

  predicate IsWhole(f: Float) {
    f.Finite? && f.exp >= 0
  }

  /** `canonical_number`, branch for branch. */
  function CanonicalNumber(n: Number): (r: Result<string, NumberRefusal>) {
    match n
    case PosInt(u) => if u > MAX_SAFE_INTEGER then Failure(UnsafeInteger) else Success(NatText(u))
    case NegInt(i) => if i < -MAX_SAFE_INTEGER then Failure(UnsafeInteger) else Success(IntText(true, if i < 0 then -i else i))
    case Decimal(f) =>
      if !f.Finite? then Failure(NonFinite)
      else if f.digits == 0 then Success("0")
      else if !(SMALLEST_PLAIN_MAGNITUDE <= Magnitude(f) < LARGEST_PLAIN_MAGNITUDE) then Failure(OutOfPlainRange)
      else if IsWhole(f) && Magnitude(f) <= MAX_SAFE_INTEGER as real then
        Success(IntText(f.negative, TimesTen(f.digits, f.exp)))
      else Success(PlainDecimal(f))
  }

  lemma {:induction false} TrailingZeros(d: nat, k: nat)
    requires d > 0
    ensures NatText(TimesTen(d, k)) == NatText(d) + Zeros(k)
  {
    if k == 0 {
      assert NatText(d) + Zeros(0) == NatText(d);
    } else {
      var m := TimesTen(d, k - 1);
      TrailingZeros(d, k - 1);
      assert NatText(10 * m) == NatText(m) + ['0'];
      assert Zeros(k) == Zeros(k - 1) + ['0'];
    }
  }

  /** Both float branches write the same text: the integer branch is the plain
      branch without its `.0`, so a whole number has one spelling whatever type
      it arrived in. */
  lemma CanonicalNumberText(n: Number)
    requires WellFormedNumber(n)
    ensures CanonicalNumber(n).Success? ==> IsFinite(n) && CanonicalNumber(n).value == NumberText(n)
  {
    if n.Decimal? && IsWhole(n.f) && n.f.digits > 0 { TrailingZeros(n.f.digits, n.f.exp); }
  }

  // ---- reading ------------------------------------------------------------

  function TextValue(s: string): nat
    requires AllDigits(s)
  {
    if s == [] then 0 else 10 * TextValue(s[..|s| - 1]) + DigitValue(s[|s| - 1])
  }

  function SpanDigits(s: string): (k: nat)
    ensures k <= |s|
    ensures AllDigits(s[..k])
    ensures k < |s| ==> !IsDigit(s[k])
  {
    if s == [] || !IsDigit(s[0]) then 0
    else
      var k := 1 + SpanDigits(s[1..]);
      assert forall i :: 1 <= i < k ==> s[i] == s[1..][i - 1];
      k
  }

  function Shorten(negative: bool, d: nat, e: int): (f: Float)
    ensures f.Finite? && IsShortest(f)
    decreases d
  {
    if d == 0 then Finite(negative, 0, 0)
    else if d % 10 == 0 then Shorten(negative, d / 10, e + 1)
    else Finite(negative, d, e)
  }

  /** Which of the three kinds the reader gives an integer spelling: unsigned
      when it fits 64 bits, signed when its negation fits 63, a float beyond. */
  function Classify(negative: bool, v: nat): (n: Number)
    ensures WellFormedNumber(n) && IsFinite(n)
  {
    if !negative && v <= U64_MAX then PosInt(v)
    else if negative && 0 < v <= I64_MIN_MAGNITUDE then NegInt(-(v as int))
    else Decimal(Shorten(negative, v, 0))
  }

  function ReadNumber(s: string): (r: Option<(Number, string)>)
    ensures r.Some? ==> |r.value.1| < |s| && WellFormedNumber(r.value.0)
  {
    if s != [] && s[0] == '-' then ReadUnsigned(true, s[1..]) else ReadUnsigned(false, s)
  }

  function ReadUnsigned(negative: bool, t: string): (r: Option<(Number, string)>)
    ensures r.Some? ==> |r.value.1| < |t| && WellFormedNumber(r.value.0)
  {
    var k := SpanDigits(t);
    if k == 0 || (k > 1 && t[0] == '0') then None
    else if k < |t| && t[k] == '.' then ReadFraction(negative, t[..k], t[k + 1..])
    else Some((Classify(negative, TextValue(t[..k])), t[k..]))
  }

  function ReadFraction(negative: bool, whole: string, u: string): (r: Option<(Number, string)>)
    requires AllDigits(whole)
    ensures r.Some? ==> |r.value.1| < |u| && WellFormedNumber(r.value.0)
  {
    var m: int := SpanDigits(u);
    if m == 0 then None
    else Some((Decimal(Shorten(negative, TextValue(whole + u[..m]), -m)), u[m..]))
  }

  /** What a number becomes once it has been written and read back. */
  function NormalNumber(n: Number): (r: Number)
    requires IsFinite(n)
    ensures IsFinite(r) && (WellFormedNumber(n) ==> WellFormedNumber(r))
  {
    match n
    case PosInt(_) => n
    case NegInt(_) => n
    case Decimal(f) =>
      if f.digits == 0 then PosInt(0)
      else if f.exp >= 0 then Classify(f.negative, TimesTen(f.digits, f.exp))
      else n
  }

  lemma {:induction false} TextValueOfNat(n: nat)
    ensures TextValue(NatText(n)) == n
  {
    if n >= 10 {
      TextValueOfNat(n / 10);
      var s := NatText(n);
      assert s[..|s| - 1] == NatText(n / 10);
    }
  }

  lemma {:induction false} LeadingZeros(k: nat, s: string)
    requires AllDigits(s)
    ensures TextValue(Zeros(k) + s) == TextValue(s)
    decreases |s| + k
  {
    if s != [] {
      var t := Zeros(k) + s;
      assert t[..|t| - 1] == Zeros(k) + s[..|s| - 1];
      LeadingZeros(k, s[..|s| - 1]);
    } else if k > 0 {
      var t := Zeros(k) + s;
      assert t[..|t| - 1] == Zeros(k - 1) + s;
      LeadingZeros(k - 1, s);
    } else {
      assert Zeros(0) + s == s;
    }
  }

  lemma {:induction false} SpanOfDigits(a: string, rest: string)
    requires AllDigits(a)
    requires rest == [] || !IsDigit(rest[0])
    ensures SpanDigits(a + rest) == |a|
  {
    if a == [] {
      assert a + rest == rest;
    } else {
      assert (a + rest)[1..] == a[1..] + rest;
      SpanOfDigits(a[1..], rest);
    }
  }

  lemma {:induction false} ShortenUndoesScale(negative: bool, d: nat, k: nat, e: int)
    requires d % 10 != 0
    ensures Shorten(negative, TimesTen(d, k), e) == Finite(negative, d, e + k)
    decreases k
  {
    if k > 0 {
      ShortenUndoesScale(negative, d, k - 1, e + 1);
      ShortenTen(negative, TimesTen(d, k - 1), e);
    }
  }

  lemma ShortenTen(negative: bool, m: nat, e: int)
    requires m > 0
    ensures Shorten(negative, 10 * m, e) == Shorten(negative, m, e + 1)
  {
  }

  /** A spelling may only be followed by something that cannot extend it. */
  predicate EndsNumber(rest: string) {
    rest == [] || (!IsDigit(rest[0]) && rest[0] != '.')
  }

  lemma ReadSigned(negative: bool, t: string)
    requires t != [] && t[0] != '-'
    ensures ReadNumber(Signed(negative, t)) == ReadUnsigned(negative, t)
  {
    if negative { assert Signed(true, t)[1..] == t; }
  }

  lemma SignMoves(negative: bool, a: string, rest: string)
    ensures Signed(negative, a) + rest == Signed(negative, a + rest)
  {
    if negative { assert (['-'] + a) + rest == ['-'] + (a + rest); }
  }

  lemma ReadIntText(negative: bool, v: nat, rest: string)
    requires EndsNumber(rest)
    ensures ReadNumber(IntText(negative, v) + rest) == Some((Classify(negative, v), rest))
  {
    var w := NatText(v);
    var t := w + rest;
    SignMoves(negative, w, rest);
    ReadSigned(negative, t);
    SpanOfDigits(w, rest);
    TextValueOfNat(v);
    assert t[..|w|] == w && t[|w|..] == rest;
  }

  lemma ReadPointText(negative: bool, whole: string, frac: string, rest: string)
    requires AllDigits(whole) && AllDigits(frac) && frac != [] && whole != []
    requires whole[0] == '0' ==> |whole| == 1
    requires EndsNumber(rest)
    ensures ReadNumber(Signed(negative, whole + (['.'] + frac)) + rest)
         == Some((Decimal(Shorten(negative, TextValue(whole + frac), -(|frac| as int))), rest))
  {
    var tail := ['.'] + (frac + rest);
    var t := whole + tail;
    SignMoves(negative, whole + (['.'] + frac), rest);
    assert (whole + (['.'] + frac)) + rest == t;
    ReadSigned(negative, t);
    ReadUnsignedPoint(negative, whole, frac, rest);
  }

  lemma ReadUnsignedPoint(negative: bool, whole: string, frac: string, rest: string)
    requires AllDigits(whole) && AllDigits(frac) && frac != [] && whole != []
    requires whole[0] == '0' ==> |whole| == 1
    requires EndsNumber(rest)
    ensures ReadUnsigned(negative, whole + (['.'] + (frac + rest)))
         == Some((Decimal(Shorten(negative, TextValue(whole + frac), -(|frac| as int))), rest))
  {
    var tail := ['.'] + (frac + rest);
    var t := whole + tail;
    SpanOfDigits(whole, tail);
    assert t[..|whole|] == whole && t[|whole|..] == tail;
    assert t[|whole| + 1..] == frac + rest;
    ReadFractionText(negative, whole, frac, rest);
  }

  lemma ReadFractionText(negative: bool, whole: string, frac: string, rest: string)
    requires AllDigits(whole) && AllDigits(frac) && frac != []
    requires EndsNumber(rest)
    ensures ReadFraction(negative, whole, frac + rest)
         == Some((Decimal(Shorten(negative, TextValue(whole + frac), -(|frac| as int))), rest))
  {
    var u := frac + rest;
    SpanOfDigits(frac, rest);
    assert u[..|frac|] == frac && u[|frac|..] == rest;
  }

  /** The reader undoes the writer, number by number. */
  lemma ReadNumberText(n: Number, rest: string)
    requires WellFormedNumber(n) && IsFinite(n)
    requires EndsNumber(rest)
    ensures ReadNumber(NumberText(n) + rest) == Some((NormalNumber(n), rest))
  {
    match n
    case PosInt(u) =>
      ReadIntText(false, u, rest);
    case NegInt(i) =>
      ReadIntText(true, -i, rest);
    case Decimal(f) =>
      ReadDecimalText(f, rest);
  }

  lemma ReadDecimalText(f: Float, rest: string)
    requires f.Finite? && IsShortest(f)
    requires EndsNumber(rest)
    ensures ReadNumber(NumberText(Decimal(f)) + rest) == Some((NormalNumber(Decimal(f)), rest))
  {
    if f.digits == 0 {
      ReadIntText(false, 0, rest);
    } else if f.exp >= 0 {
      ReadWholeText(f, rest);
    } else {
      ReadFractionalText(f, rest);
    }
  }

  lemma ReadWholeText(f: Float, rest: string)
    requires f.Finite? && f.digits > 0 && f.exp >= 0
    requires EndsNumber(rest)
    ensures ReadNumber(PlainDecimal(f) + rest) == Some((Classify(f.negative, TimesTen(f.digits, f.exp)), rest))
  {
    var v := TimesTen(f.digits, f.exp);
    TrailingZeros(f.digits, f.exp);
    ReadIntText(f.negative, v, rest);
  }

  lemma ReadFractionalText(f: Float, rest: string)
    requires f.Finite? && f.digits % 10 != 0 && f.exp < 0
    requires EndsNumber(rest)
    ensures ReadNumber(PlainDecimal(f) + rest) == Some((Decimal(f), rest))
  {
    TextValueOfNat(f.digits);
    ReadPlainDigits(f.negative, NatText(f.digits), f.exp, rest);
  }

  lemma ReadPlainDigits(negative: bool, s: string, exp: int, rest: string)
    requires AllDigits(s) && s != [] && s[0] != '0' && exp < 0
    requires EndsNumber(rest)
    ensures ReadNumber(Signed(negative, PlainDigits(s, exp)) + rest)
         == Some((Decimal(Shorten(negative, TextValue(s), exp)), rest))
  {
    if |s| > -exp {
      var at := |s| + exp;
      SplitDigits(s, exp, s[..at], s[at..]);
      ReadPointText(negative, s[..at], s[at..], rest);
    } else {
      var frac, zero := Zeros(-exp - |s|) + s, Zeros(1);
      SmallDigits(s, exp, zero, frac);
      ReadPointText(negative, zero, frac, rest);
    }
  }

  lemma SplitDigits(s: string, exp: int, whole: string, frac: string)
    requires AllDigits(s) && -|s| < exp < 0 && s[0] != '0'
    requires whole == s[..|s| + exp] && frac == s[|s| + exp..]
    ensures PlainDigits(s, exp) == whole + (['.'] + frac)
    ensures AllDigits(whole) && whole != [] && whole[0] != '0'
    ensures AllDigits(frac) && frac != [] && |frac| == -exp && TextValue(whole + frac) == TextValue(s)
  {
    assert whole + frac == s;
  }

  lemma SmallDigits(s: string, exp: int, zero: string, frac: string)
    requires AllDigits(s) && s != [] && exp <= -|s|
    requires frac == Zeros(-exp - |s|) + s && zero == Zeros(1)
    ensures PlainDigits(s, exp) == zero + (['.'] + frac)
    ensures AllDigits(frac) && frac != [] && |frac| == -exp && TextValue(zero + frac) == TextValue(s)
  {
    var zeros := -exp - |s|;
    assert zero == "0";
    MoreZeros(zeros, s);
    LeadingZeros(1 + zeros, s);
  }

  lemma MoreZeros(k: nat, s: string)
    ensures Zeros(1) + (Zeros(k) + s) == Zeros(1 + k) + s
  {
  }

  // ---- one normal form per value ------------------------------------------

  lemma {:induction false} ShortenKeepsValue(negative: bool, d: nat, e: int)
    ensures Magnitude(Shorten(negative, d, e)) == Scaled(d, e)
    ensures Shorten(negative, d, e).negative == negative
    decreases d
  {
    if d == 0 {
      ZeroScales(e);
    } else if d % 10 == 0 {
      ShortenKeepsValue(negative, d / 10, e + 1);
      ScaledShift(d / 10, e);
    }
  }

  lemma {:induction false} ZeroScales(e: int)
    ensures Scaled(0, e) == 0.0
    decreases if e < 0 then -e else e
  {
    if e > 0 { ZeroScales(e - 1); } else if e < 0 { ZeroScales(e + 1); }
  }

  lemma ClassifyKeepsValue(negative: bool, v: nat)
    ensures Value(Classify(negative, v)) == if negative then -(v as real) else v as real
  {
    ShortenKeepsValue(negative, v, 0);
  }

  lemma NormalKeepsValue(n: Number)
    requires WellFormedNumber(n) && IsFinite(n)
    ensures Value(NormalNumber(n)) == Value(n)
  {
    if n.Decimal? && n.f.digits > 0 && n.f.exp >= 0 {
      ClassifyKeepsValue(n.f.negative, TimesTen(n.f.digits, n.f.exp));
      ScaledDown(n.f.digits, 0, n.f.exp);
    }
  }

  /** The shape every normal number has. */
  ghost predicate IsNormalNumber(n: Number) {
    WellFormedNumber(n) && IsFinite(n) &&
    (n.Decimal? ==>
      n.f.digits > 0 &&
      (n.f.exp < 0 || Magnitude(n.f) > (if n.f.negative then I64_MIN_MAGNITUDE else U64_MAX) as real))
  }

  lemma NormalIsNormal(n: Number)
    requires WellFormedNumber(n) && IsFinite(n)
    ensures IsNormalNumber(NormalNumber(n))
  {
    if n.Decimal? && n.f.digits > 0 && n.f.exp >= 0 {
      var v := TimesTen(n.f.digits, n.f.exp);
      ShortenUndoesScale(n.f.negative, n.f.digits, n.f.exp, 0);
      ShortenKeepsValue(n.f.negative, v, 0);
    }
  }

  lemma FractionIsNotWhole(f: Float, v: int)
    requires f.Finite? && f.digits % 10 != 0 && f.exp < 0
    ensures Magnitude(f) != v as real
  {
    if Magnitude(f) == v as real {
      ScaledDown(v, f.exp, -f.exp);
      ScaledInjective(f.digits, TimesTen(v, -f.exp), f.exp);
    }
  }

  lemma NormalIsUnique(a: Number, b: Number)
    requires IsNormalNumber(a) && IsNormalNumber(b)
    requires Value(a) == Value(b)
    ensures a == b
  {
    if a.Decimal? && b.Decimal? {
      DecimalIsUnique(a.f, b.f);
    } else if b.Decimal? {
      NotAnInteger(b, a);
    } else if a.Decimal? {
      NotAnInteger(a, b);
    }
  }

  lemma DecimalIsUnique(f: Float, g: Float)
    requires f.Finite? && g.Finite? && f.digits % 10 != 0 && g.digits % 10 != 0
    requires Value(Decimal(f)) == Value(Decimal(g))
    ensures f == g
  {
    ShortestIsUnique(f.digits, f.exp, g.digits, g.exp);
  }

  lemma NotAnInteger(a: Number, b: Number)
    requires IsNormalNumber(a) && IsNormalNumber(b)
    requires a.Decimal? && !b.Decimal?
    ensures Value(a) != Value(b)
  {
    var v := if b.PosInt? then b.u else b.i;
    if a.f.exp < 0 { FractionIsNotWhole(a.f, if a.f.negative then -v else v); }
  }

  /** Two numbers read back the same exactly when they are the same number. */
  lemma NormalNumberIsValue(a: Number, b: Number)
    requires WellFormedNumber(a) && IsFinite(a) && WellFormedNumber(b) && IsFinite(b)
    ensures NormalNumber(a) == NormalNumber(b) <==> Value(a) == Value(b)
  {
    NormalKeepsValue(a);
    NormalKeepsValue(b);
    NormalIsNormal(a);
    NormalIsNormal(b);
    if Value(a) == Value(b) { NormalIsUnique(NormalNumber(a), NormalNumber(b)); }
  }

  /** Writing what was read changes nothing. */
  lemma NormalKeepsText(n: Number)
    requires WellFormedNumber(n) && IsFinite(n)
    ensures NumberText(NormalNumber(n)) == NumberText(n)
  {
    if n.Decimal? && n.f.digits > 0 && n.f.exp >= 0 {
      TrailingZeros(n.f.digits, n.f.exp);
      ShortenUndoesScale(n.f.negative, n.f.digits, n.f.exp, 0);
    }
  }

  /** The floats that print and then read back as an integer the writer refuses:
      whole, above `2^53 - 1`, and within the reader's 64-bit integers. */
  predicate RereadsUnsafe(n: Number) {
    n.Decimal? && IsWhole(n.f) &&
    MAX_SAFE_INTEGER as real < Magnitude(n.f) <= (if n.f.negative then I64_MIN_MAGNITUDE else U64_MAX) as real
  }

  /** The text of an accepted number is accepted again exactly when it is not
      one of those. */
  lemma NormalIsAccepted(n: Number)
    requires WellFormedNumber(n) && CanonicalNumber(n).Success?
    ensures CanonicalNumber(NormalNumber(n)).Success? <==> !RereadsUnsafe(n)
  {
    if n.Decimal? && n.f.digits > 0 && n.f.exp >= 0 { WholeIsAccepted(n.f); }
  }

  lemma WholeValue(f: Float)
    requires f.Finite? && f.exp >= 0
    ensures Magnitude(f) == (TimesTen(f.digits, f.exp)) as real
  {
    ScaledDown(f.digits, 0, f.exp);
  }

  lemma WholeIsAccepted(f: Float)
    requires f.Finite? && f.digits % 10 != 0 && f.exp >= 0
    requires CanonicalNumber(Decimal(f)).Success?
    ensures CanonicalNumber(NormalNumber(Decimal(f))).Success? <==> !RereadsUnsafe(Decimal(f))
  {
    WholeValue(f);
    var v := TimesTen(f.digits, f.exp);
    if Fits(f.negative, v) {
      IntegerIsAccepted(f.negative, v);
    } else {
      ShortenUndoesScale(f.negative, f.digits, f.exp, 0);
    }
  }

  /** The reader has a 64-bit integer for this spelling. */
  predicate Fits(negative: bool, v: nat) {
    if negative then 0 < v <= I64_MIN_MAGNITUDE else v <= U64_MAX
  }

  lemma IntegerIsAccepted(negative: bool, v: nat)
    requires Fits(negative, v)
    ensures CanonicalNumber(Classify(negative, v)).Success? <==> v <= MAX_SAFE_INTEGER
  {
  }

  /** Ten to the sixteenth is such a float; ten to the twentieth is not. */
  lemma UnsafeWholeExample()
    ensures CanonicalNumber(Decimal(Finite(false, 1, 16))) == Success(NumberText(Decimal(Finite(false, 1, 16))))
    ensures CanonicalNumber(NormalNumber(Decimal(Finite(false, 1, 16)))) == Failure(UnsafeInteger)
    ensures NormalNumber(Decimal(Finite(false, 1, 20))) == Decimal(Finite(false, 1, 20))
  {
    var a := Decimal(Finite(false, 1, 16));
    ScaledDown(1, 0, 16);
    assert TimesTen(1, 4) == 10_000 && TimesTen(1, 8) == 100_000_000;
    assert TimesTen(1, 12) == 1_000_000_000_000 && TimesTen(1, 16) == 10_000_000_000_000_000;
    CanonicalNumberText(a);
    assert TimesTen(1, 20) == 100_000_000_000_000_000_000;
    ShortenUndoesScale(false, 1, 20, 0);
  }
}
