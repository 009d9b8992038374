/** Exact questions about JSON number lexemes (section 6 of RFC 8259), answered
    on the digits without expanding the exponent.

    The reference is the rational value of the lexeme. */
module JsonNumber {
  import opened Text
  import opened Decimal

  /** The parts of a JSON number: an optional minus, an integer part, an optional
      fraction and an optional exponent with its letter and its sign. */
  datatype Fraction = NoFraction | Fraction(digits: string)
  datatype Exponent = NoExponent | Exponent(letter: char, sign: string, digits: string)
  datatype Lexeme = Lexeme(negative: bool, integer: string, fraction: Fraction, exponent: Exponent) {

    /** Section 6 of RFC 8259. */
    predicate Valid() {
      && Digits(integer) && integer != "" && (integer[0] == '0' ==> |integer| == 1)
      && (fraction.Fraction? ==> Digits(fraction.digits) && fraction.digits != "")
      && (exponent.Exponent? ==>
            && exponent.letter in "eE" && exponent.sign in ["", "+", "-"]
            && Digits(exponent.digits) && exponent.digits != "")
    }

    function FractionDigits(): string {
      if fraction.Fraction? then fraction.digits else ""
    }

    function Mantissa(): string {
      integer + if fraction.Fraction? then "." + fraction.digits else ""
    }

    function ExponentText(): string {
      if exponent.Exponent? then exponent.sign + exponent.digits else ""
    }

    function Unsigned(): string {
      Mantissa() + if exponent.Exponent? then [exponent.letter] + ExponentText() else ""
    }

    function Render(): string {
      (if negative then "-" else "") + Unsigned()
    }

    function Coefficient(): string { integer + FractionDigits() }

    /** The exponent as written, of any size. */
    function Exp(): int
      requires Valid()
    {
      if exponent.NoExponent? then 0 else Negated(exponent.sign == "-", NatOf(exponent.digits))
    }

    /** The power of ten the coefficient is multiplied by. */
    function Scale(): int
      requires Valid()
    {
      Exp() - |FractionDigits()|
    }

    lemma CoefficientDigits()
      requires Valid()
      ensures Digits(Coefficient())
    {}

    /** The coefficient as a number, without sign. */
    function Magnitude(): nat
      requires Valid()
    {
      CoefficientDigits();
      NatOf(Coefficient())
    }

    /** The rational number the lexeme denotes. */
    function Value(): real
      requires Valid()
    {
      Scaled(Negated(negative, Magnitude()) as real, Scale())
    }
  }

  /** `x` times ten to the power `k`, for any integer `k`. */
  function Scaled(x: real, k: int): real
    decreases if k < 0 then -k else k
  {
    if k == 0 then x else if k > 0 then 10.0 * Scaled(x, k - 1) else Scaled(x, k + 1) / 10.0
  }

  function Negated(negative: bool, n: int): int { if negative then -n else n }

  predicate Integral(x: real) { x == x.Floor as real }

  // ---------------------------------------------------------------- the code

  datatype Bounded = Fits(value: nat) | Exceeds

  /** Parses a digit string, giving up once it exceeds `limit`. The comparison is
      by length and then by text. */
  function ParseDecimalAtMost(raw: string, limit: nat): (r: Bounded)
    requires Digits(raw)
    ensures r.Fits? <==> NatOf(raw) <= limit
    ensures r.Fits? ==> r.value == NatOf(raw)
  {
    var normalized := TrimLeft(raw, '0');
    NatOfTrimLeft(raw);
    if normalized == "" then Fits(0)
    else
      var limitText := Itoa(limit);
      ParseCompare(normalized, limit);
      if |normalized| > |limitText| || (|normalized| == |limitText| && Less(limitText, normalized))
      then Exceeds
      else Fits(NatOf(normalized))
  }

  lemma ParseCompare(normalized: string, limit: nat)
    requires Digits(normalized) && normalized != "" && normalized[0] != '0'
    ensures var limitText := Itoa(limit);
            (|normalized| > |limitText| || (|normalized| == |limitText| && Less(limitText, normalized)))
            <==> NatOf(normalized) > limit
  {
    var limitText := Itoa(limit);
    if |normalized| > |limitText| {
      NatOfLonger(normalized, limitText);
    } else if |normalized| < |limitText| {
      NatOfLonger(limitText, normalized);
    } else {
      LessIsNumeric(limitText, normalized);
    }
  }

  /** How both `IsInteger`, `Int64` and `canonicalIntegerKey` take a lexeme apart. */
  datatype Parts = Parts(negative: bool, mantissa: string, exponentText: string, hasExponent: bool,
                         integer: string, fraction: string, hasFraction: bool)

  function TakeApart(raw: string): Parts {
    var unsigned := TrimPrefix(raw, '-');
    var lower := CutAt(unsigned, 'e');
    var cut := if lower.found then lower else CutAt(unsigned, 'E');
    var point := CutAt(cut.before, '.');
    Parts(HasPrefix(raw, '-'), cut.before, cut.after, cut.found, point.before, point.after, point.found)
  }

  /** The only lexeme that `raw` could render. */
  function Parse(raw: string): Lexeme {
    var p := TakeApart(raw);
    var letter := if CutAt(TrimPrefix(raw, '-'), 'e').found then 'e' else 'E';
    var sign := if HasPrefix(p.exponentText, '+') || HasPrefix(p.exponentText, '-') then p.exponentText[..1] else "";
    Lexeme(p.negative, p.integer,
           if p.hasFraction then Fraction(p.fraction) else NoFraction,
           if p.hasExponent then Exponent(letter, sign, p.exponentText[|sign|..]) else NoExponent)
  }

  /** `ParseNumber` succeeds: `raw` is one JSON number and nothing else. */
  predicate IsNumber(raw: string) {
    var lex := Parse(raw);
    lex.Valid() && lex.Render() == raw
  }

  function StripSign(exponentText: string): string {
    TrimPrefix(TrimPrefix(exponentText, '+'), '-')
  }

  predicate IsInteger(raw: string)
    ensures IsInteger(raw) ==> IsNumber(raw)
  {
    if !IsNumber(raw) then false else
      TakeApartOfNumber(raw);
      IntegralParts(TakeApart(raw))
  }

  function IntegralParts(p: Parts): bool
    requires Digits(p.integer + p.fraction) && Digits(StripSign(p.exponentText))
  {
    var coefficient := p.integer + p.fraction;
    if TrimLeft(TrimRight(coefficient, '0'), '0') == "" then true else
      var trailingZeros := |coefficient| - |TrimRight(coefficient, '0')|;
      var fractionDigits := |p.fraction|;
      if !p.hasExponent || p.exponentText == "" then trailingZeros >= fractionDigits
      else
        var exponentDigits := StripSign(p.exponentText);
        if HasPrefix(p.exponentText, '-') then
          var availableZeros := trailingZeros - fractionDigits;
          availableZeros >= 0 && ParseDecimalAtMost(exponentDigits, availableZeros).Fits?
        else
          match ParseDecimalAtMost(exponentDigits, fractionDigits)
          case Exceeds => true
          case Fits(exponent) => trailingZeros >= fractionDigits - exponent
  }

  datatype Int64Result = Ok(value: int) | NotAnInteger | OutOfRange


  /** `strconv.ParseInt(text, 10, 64)` of an optional minus and digits. */
  function ParseInt64(negative: bool, digits: string): Int64Result
    requires Digits(digits)
  {
    var v := Negated(negative, NatOf(digits));
    if MIN_INT64 <= v <= MAX_INT64 then Ok(v) else OutOfRange
  }

  function Int64(raw: string): (r: Int64Result) {
    if !IsInteger(raw) then NotAnInteger else
      TakeApartOfNumber(raw);
      Int64Parts(TakeApart(raw))
  }

  function Int64Parts(p: Parts): Int64Result
    requires Digits(p.integer + p.fraction) && Digits(StripSign(p.exponentText))
  {
    NatOfTrimLeft(p.integer + p.fraction);
    var coefficient := TrimLeft(p.integer + p.fraction, '0');
    if coefficient == "" then Ok(0) else Int64Significant(p, coefficient)
  }

  function Int64Significant(p: Parts, coefficient: string): Int64Result
    requires Digits(coefficient) && Digits(StripSign(p.exponentText))
  {
    var exponentNegative := HasPrefix(p.exponentText, '-');
    match ParseExponent(p, if exponentNegative then |coefficient| else |p.fraction| + 20)
    case Exceeds => OutOfRange
    case Fits(exponent) => Shifted(p.negative, coefficient, Negated(exponentNegative, exponent) - |p.fraction|)
  }

  function ParseExponent(p: Parts, limit: nat): Bounded
    requires Digits(StripSign(p.exponentText))
  {
    if p.hasExponent then ParseDecimalAtMost(StripSign(p.exponentText), limit) else Fits(0)
  }

  /** The digits moved by `scale` places and parsed. */
  function Shifted(negative: bool, coefficient: string, scale: int): Int64Result
    requires Digits(coefficient)
  {
    if scale < 0 then
      var keep := |coefficient| + scale;
      if keep <= 0 then OutOfRange else ParseInt64(negative, coefficient[..keep])
    else if |coefficient| + scale > 19 then OutOfRange
    else ParseInt64(negative, coefficient + Zeros(scale))
  }

  /** `strings.Repeat("0", n)`. */
  function Zeros(n: nat): (s: string)
    ensures |s| == n && Digits(s) && forall i :: 0 <= i < n ==> s[i] == '0'
  {
    seq(n, i => '0')
  }

  // -------------------------------------------------- taking a lexeme apart

  lemma NoSeparators(lex: Lexeme)
    requires lex.Valid()
    ensures 'e' !in lex.Mantissa() && 'E' !in lex.Mantissa() && '-' !in lex.Mantissa()
    ensures 'e' !in lex.ExponentText() && 'E' !in lex.ExponentText()
    ensures '.' !in lex.integer
    ensures lex.Mantissa() != ""
  {
    assert forall c :: c in lex.integer ==> IsDigit(c);
    assert forall c :: c in lex.FractionDigits() ==> IsDigit(c);
    if lex.exponent.Exponent? {
      assert forall c :: c in lex.exponent.digits ==> IsDigit(c);
    }
  }

  predicate Matches(p: Parts, lex: Lexeme)
    requires lex.Valid()
  {
    && p.negative == lex.negative
    && p.mantissa == lex.Mantissa()
    && p.hasExponent == lex.exponent.Exponent?
    && p.exponentText == lex.ExponentText()
    && p.integer == lex.integer
    && p.hasFraction == lex.fraction.Fraction?
    && p.fraction == lex.FractionDigits()
  }

  lemma CutExponent(lex: Lexeme)
    requires lex.Valid()
    ensures var lower := CutAt(lex.Unsigned(), 'e');
            var cut := if lower.found then lower else CutAt(lex.Unsigned(), 'E');
            cut == Cut(lex.Mantissa(), lex.ExponentText(), lex.exponent.Exponent?)
  {
    NoSeparators(lex);
    var u := lex.Unsigned();
    if lex.exponent.NoExponent? {
      assert u == lex.Mantissa();
      var lower, upper := CutAt(u, 'e'), CutAt(u, 'E');
      assert lower.found ==> 'e' in u;
      assert upper.found ==> 'E' in u;
    } else {
      assert u == lex.Mantissa() + [lex.exponent.letter] + lex.ExponentText();
      CutAtFirst(lex.Mantissa(), lex.exponent.letter, lex.ExponentText());
      if lex.exponent.letter == 'E' {
        var lower := CutAt(u, 'e');
        assert lower.found ==> 'e' in u;
      }
    }
  }

  /** The cuts of the code find the parts the grammar names. */
  lemma TakeApartOf(lex: Lexeme)
    requires lex.Valid()
    ensures Matches(TakeApart(lex.Render()), lex)
  {
    TrimSign(lex);
    CutExponent(lex);
    CutPoint(lex);
  }

  lemma CutPoint(lex: Lexeme)
    requires lex.Valid()
    ensures CutAt(lex.Mantissa(), '.') == Cut(lex.integer, lex.FractionDigits(), lex.fraction.Fraction?)
  {
    NoSeparators(lex);
    if lex.fraction.Fraction? {
      assert lex.Mantissa() == lex.integer + ['.'] + lex.fraction.digits;
      CutAtFirst(lex.integer, '.', lex.fraction.digits);
    } else {
      assert lex.Mantissa() == lex.integer;
      assert CutAt(lex.integer, '.').found ==> '.' in lex.integer;
    }
  }

  lemma TrimSign(lex: Lexeme)
    requires lex.Valid()
    ensures TrimPrefix(lex.Render(), '-') == lex.Unsigned()
    ensures HasPrefix(lex.Render(), '-') == lex.negative
  {
    NoSeparators(lex);
    var raw := lex.Render();
    if lex.negative {
      assert raw == "-" + lex.Unsigned();
      assert raw[1..] == lex.Unsigned();
    } else {
      assert raw == lex.Unsigned();
      assert raw[0] == lex.Mantissa()[0];
    }
  }

  lemma TakeApartOfNumber(raw: string)
    requires IsNumber(raw)
    ensures var p := TakeApart(raw);
            Digits(p.integer + p.fraction) && Digits(StripSign(p.exponentText))
  {
    TakeApartOf(Parse(raw));
    StripSignOf(Parse(raw));
  }

  /** `IsNumber` recognises the grammar and `Parse` inverts `Render`. */
  lemma ParseOf(lex: Lexeme)
    requires lex.Valid()
    ensures Parse(lex.Render()) == lex && IsNumber(lex.Render())
  {
    TakeApartOf(lex);
    TrimSign(lex);
    LetterOf(lex);
    if lex.exponent.Exponent? { ExponentOf(lex); }
    assert Parse(lex.Render()) == lex;
  }

  lemma LetterOf(lex: Lexeme)
    requires lex.Valid()
    ensures lex.exponent.Exponent? ==>
              lex.exponent.letter == if CutAt(lex.Unsigned(), 'e').found then 'e' else 'E'
  {
    NoSeparators(lex);
    if lex.exponent.Exponent? {
      var u := lex.Unsigned();
      assert u == lex.Mantissa() + [lex.exponent.letter] + lex.ExponentText();
      if lex.exponent.letter == 'e' {
        CutAtFirst(lex.Mantissa(), 'e', lex.ExponentText());
      } else {
        assert CutAt(u, 'e').found ==> 'e' in u;
      }
    }
  }

  lemma ExponentOf(lex: Lexeme)
    requires lex.Valid() && lex.exponent.Exponent?
    ensures var t := lex.ExponentText();
            var sign := if HasPrefix(t, '+') || HasPrefix(t, '-') then t[..1] else "";
            sign == lex.exponent.sign && t[|sign|..] == lex.exponent.digits
  {
    var t, d := lex.ExponentText(), lex.exponent.digits;
    assert IsDigit(d[0]);
    if lex.exponent.sign == "" {
      assert t == d;
    } else {
      assert t[0] == lex.exponent.sign[0] && t[1..] == d;
      assert t[..1] == lex.exponent.sign;
    }
  }

  lemma StripSignOf(lex: Lexeme)
    requires lex.Valid()
    ensures lex.exponent.Exponent? ==>
              && StripSign(lex.ExponentText()) == lex.exponent.digits
              && (HasPrefix(lex.ExponentText(), '-') <==> lex.exponent.sign == "-")
              && lex.ExponentText() != ""
    ensures lex.exponent.NoExponent? ==> StripSign(lex.ExponentText()) == "" && !HasPrefix(lex.ExponentText(), '-')
  {
    if lex.exponent.Exponent? {
      var d := lex.exponent.digits;
      assert IsDigit(d[0]);
      var t := lex.ExponentText();
      if lex.exponent.sign == "" {
        assert t == d;
      } else {
        assert t[0] == lex.exponent.sign[0] && t[1..] == d;
      }
    }
  }

  // ------------------------------------------------- powers of ten over reals

  lemma ScaledStep(x: real, k: int)
    ensures Scaled(x, k + 1) == 10.0 * Scaled(x, k)
  {}

  lemma {:induction false} ScaledTwice(x: real, a: int, b: int)
    ensures Scaled(x, a + b) == Scaled(Scaled(x, a), b)
    decreases if b < 0 then -b else b
  {
    if b > 0 {
      ScaledTwice(x, a, b - 1);
      ScaledStep(x, a + b - 1);
    } else if b < 0 {
      ScaledTwice(x, a, b + 1);
      ScaledStep(x, a + b);
    }
  }

  lemma {:induction false} ScaledInjective(x: real, y: real, k: int)
    requires Scaled(x, k) == Scaled(y, k)
    ensures x == y
    decreases if k < 0 then -k else k
  {
    if k > 0 { ScaledInjective(x, y, k - 1); }
    if k < 0 { ScaledInjective(x, y, k + 1); }
  }

  lemma {:induction false} ScaledNegated(x: real, k: int)
    ensures Scaled(-x, k) == -Scaled(x, k)
    decreases if k < 0 then -k else k
  {
    if k > 0 { ScaledNegated(x, k - 1); }
    if k < 0 { ScaledNegated(x, k + 1); }
  }

  lemma {:induction false} ScaledZero(k: int)
    ensures Scaled(0.0, k) == 0.0
    decreases if k < 0 then -k else k
  {
    if k > 0 { ScaledZero(k - 1); }
    if k < 0 { ScaledZero(k + 1); }
  }

  lemma {:induction false} ScaledOfInt(n: int, k: nat)
    ensures Scaled(n as real, k) == (n * Pow10(k)) as real
  {
    if k > 0 {
      ScaledOfInt(n, k - 1);
      Shuffle(n, Pow10(k - 1));
    }
  }

  /** Digits followed by `z` zeros denote the shorter digits scaled by `z`. */
  lemma ZerosAreScale(m: nat, c: nat, z: nat, k: int)
    requires m == c * Pow10(z)
    ensures Scaled(m as real, k) == Scaled(c as real, z + k)
  {
    ScaledOfInt(c, z);
    ScaledTwice(c as real, z, k);
  }

  // ----------------------------------------------------- normalised numbers

  /** A non-zero digit string without its trailing zeros. */
  lemma MoveZeros(digits: string, k: int)
    requires Digits(digits) && NatOf(digits) != 0
    ensures var t := TrimRight(digits, '0');
            && Digits(t) && t != "" && NatOf(t) % 10 != 0
            && Scaled(NatOf(digits) as real, k) == Scaled(NatOf(t) as real, |digits| - |t| + k)
  {
    NatOfTrimRight(digits);
    var t := TrimRight(digits, '0');
    if t == "" { NatOfZeros(digits); }
    ZerosAreScale(NatOf(digits), NatOf(t), |digits| - |t|, k);
  }

  /** A number not divisible by ten, scaled, is integral exactly when the scale
      is not negative. */
  lemma IntegralIff(c: nat, k: int)
    requires c % 10 != 0
    ensures Integral(Scaled(c as real, k)) <==> k >= 0
  {
    if k >= 0 {
      ScaledOfInt(c, k);
    } else {
      var x := Scaled(c as real, k);
      if Integral(x) {
        ScaledTwice(c as real, k, -k);
        ScaledOfInt(x.Floor, -k);
        TenDivides(x.Floor, Pow10(-k));
      }
    }
  }

  lemma TenDivides(n: int, p: nat)
    requires p % 10 == 0
    ensures (n * p) % 10 == 0
  {
    Shuffle(n, p / 10);
    assert n * p == 10 * (n * (p / 10));
  }

  /** A scaled number determines its digits and its scale, once the digits do not
      end in zero. */
  lemma NormalisedUnique(c: int, k: int, d: int, l: int)
    requires c % 10 != 0 && d % 10 != 0
    requires Scaled(c as real, k) == Scaled(d as real, l)
    ensures c == d && k == l
  {
    if k <= l { NormalisedOrdered(c, k, d, l); } else { NormalisedOrdered(d, l, c, k); }
  }

  lemma NormalisedOrdered(c: int, k: int, d: int, l: int)
    requires c % 10 != 0 && k <= l
    requires Scaled(c as real, k) == Scaled(d as real, l)
    ensures c == d && k == l
  {
    ScaledTwice(d as real, l - k, k);
    ScaledInjective(c as real, Scaled(d as real, l - k), k);
    ScaledOfInt(d, l - k);
    if k < l { TenDivides(d, Pow10(l - k)); }
  }

  // ------------------------------------------------------------ the theorems

  lemma AllZeros(digits: string)
    requires Digits(digits)
    ensures TrimLeft(TrimRight(digits, '0'), '0') == "" <==> NatOf(digits) == 0
  {
    hide Pow10, NatOf, TrimLeft, TrimRight;
    NatOfTrimRight(digits);
    var t := TrimRight(digits, '0');
    NatOfTrimmedZero(t);
    ZeroProduct(NatOf(t), Pow10(|digits| - |t|));
  }

  lemma ZeroProduct(x: nat, p: nat)
    requires p >= 1
    ensures x * p == 0 <==> x == 0
  {}

  /** The value without its sign. */
  lemma ValueUnsigned(lex: Lexeme)
    requires lex.Valid()
    ensures var u := Scaled(lex.Magnitude() as real, lex.Scale());
            && lex.Value() == (if lex.negative then -u else u)
            && (Integral(lex.Value()) <==> Integral(u))
  {
    ScaledNegated(lex.Magnitude() as real, lex.Scale());
    IntegralNegated(Scaled(lex.Magnitude() as real, lex.Scale()));
  }

  lemma IntegralNegated(x: real)
    ensures Integral(-x) <==> Integral(x)
    ensures Integral(x) ==> (-x).Floor == -x.Floor
  {
    if Integral(x) { assert -x == (-x.Floor) as real; }
    if Integral(-x) { assert x == (-(-x).Floor) as real; }
  }

  /** Integrality in terms of digits and scale: the trailing zeros cover the
      places after the point. */
  lemma IntegralByZeros(lex: Lexeme)
    requires lex.Valid()
    ensures var coefficient := lex.Coefficient();
            Integral(lex.Value()) <==>
            lex.Magnitude() == 0 || |coefficient| - |TrimRight(coefficient, '0')| + lex.Scale() >= 0
  {
    ValueUnsigned(lex);
    var coefficient := lex.Coefficient();
    if lex.Magnitude() == 0 {
      ScaledZero(lex.Scale());
    } else {
      var t := TrimRight(coefficient, '0');
      MoveZeros(coefficient, lex.Scale());
      IntegralIff(NatOf(t), |coefficient| - |t| + lex.Scale());
    }
  }

  /** `IsInteger` is true exactly when the number the lexeme denotes is integral,
      for exponents of any length. */
  lemma IsIntegerCorrect(lex: Lexeme)
    requires lex.Valid()
    ensures IsInteger(lex.Render()) <==> Integral(lex.Value())
  {
    ParseOf(lex);
    TakeApartOf(lex);
    TakeApartOfNumber(lex.Render());
    AllZeros(lex.Coefficient());
    IntegralByZeros(lex);
    IntegralPartsOf(lex, TakeApart(lex.Render()));
  }

  lemma IntegralPartsOf(lex: Lexeme, p: Parts)
    requires lex.Valid() && Matches(p, lex)
    requires Digits(p.integer + p.fraction) && Digits(StripSign(p.exponentText))
    ensures var coefficient := lex.Coefficient();
            IntegralParts(p) <==>
            || TrimLeft(TrimRight(coefficient, '0'), '0') == ""
            || |coefficient| - |TrimRight(coefficient, '0')| + lex.Scale() >= 0
  {
    hide TrimLeft, TrimRight, NatOf, StripSign, ParseDecimalAtMost;
    StripSignOf(lex);
    assert p.integer + p.fraction == lex.Coefficient();
  }

  /** What `Int64` must answer for a number. */
  function Expected(x: real): Int64Result {
    if !Integral(x) then NotAnInteger
    else if MIN_INT64 <= x.Floor <= MAX_INT64 then Ok(x.Floor)
    else OutOfRange
  }

  /** `Int64` answers the integer the lexeme denotes exactly when it is one and
      fits 64 bits, for exponents of any length. */
  lemma Int64Correct(lex: Lexeme)
    requires lex.Valid()
    ensures Int64(lex.Render()) == Expected(lex.Value())
  {
    ParseOf(lex);
    IsIntegerCorrect(lex);
    if Integral(lex.Value()) {
      TakeApartOf(lex);
      TakeApartOfNumber(lex.Render());
      Int64PartsOf(lex, TakeApart(lex.Render()));
    }
  }

  lemma Int64PartsOf(lex: Lexeme, p: Parts)
    requires lex.Valid() && Matches(p, lex) && Integral(lex.Value())
    requires Digits(p.integer + p.fraction) && Digits(StripSign(p.exponentText))
    ensures Int64Parts(p) == Expected(lex.Value())
  {
    hide *;
    PartsAre(lex, p);
    if lex.Magnitude() == 0 {
      ZeroExpected(lex);
    } else {
      SignificantTrimmed(lex);
      Int64NonZero(lex, p, TrimLeft(lex.Coefficient(), '0'));
    }
  }

  /** `Int64Parts` in terms of the lexeme. */
  lemma PartsAre(lex: Lexeme, p: Parts)
    requires lex.Valid() && Matches(p, lex)
    requires Digits(p.integer + p.fraction) && Digits(StripSign(p.exponentText))
    ensures Digits(TrimLeft(lex.Coefficient(), '0'))
    ensures Int64Parts(p) ==
            if lex.Magnitude() == 0 then Ok(0) else Int64Significant(p, TrimLeft(lex.Coefficient(), '0'))
  {
    hide StripSign, TrimLeft, NatOf, Int64Significant;
    assert p.integer + p.fraction == lex.Coefficient();
    hide Digits;
    NatOfTrimLeft(lex.Coefficient());
    NatOfTrimmedZero(lex.Coefficient());
  }

  lemma ZeroExpected(lex: Lexeme)
    requires lex.Valid() && lex.Magnitude() == 0
    ensures Expected(lex.Value()) == Ok(0)
  {
    ValueUnsigned(lex);
    ScaledZero(lex.Scale());
  }

  lemma SignificantTrimmed(lex: Lexeme)
    requires lex.Valid() && Integral(lex.Value()) && lex.Magnitude() != 0
    ensures Significant(lex, TrimLeft(lex.Coefficient(), '0'))
  {
    IntegralByZeros(lex);
    hide Integral, Scaled;
    lex.CoefficientDigits();
    ZerosInside(lex.Coefficient());
    NatOfTrimLeft(lex.Coefficient());
  }

  /** What the code knows of the digits once the leading zeros are gone. */
  predicate Significant(lex: Lexeme, coefficient: string)
    requires lex.Valid()
  {
    && Digits(coefficient) && coefficient != "" && coefficient[0] != '0'
    && NatOf(coefficient) == lex.Magnitude()
    && (lex.Scale() < 0 ==>
          && -lex.Scale() < |coefficient|
          && forall i :: |coefficient| + lex.Scale() <= i < |coefficient| ==> coefficient[i] == '0')
  }

  lemma Int64NonZero(lex: Lexeme, p: Parts, coefficient: string)
    requires lex.Valid() && Matches(p, lex) && Integral(lex.Value())
    requires Significant(lex, coefficient) && Digits(StripSign(p.exponentText))
    ensures Int64Significant(p, coefficient) == Expected(lex.Value())
  {
    hide *;
    var limit := if HasPrefix(p.exponentText, '-') then |coefficient| else |p.fraction| + 20;
    ParsedExponent(lex, p, limit);
    SignificantIs(lex, p, coefficient, limit);
    if ParseExponent(p, limit).Exceeds? {
      ScaleTooLarge(lex, p, coefficient, limit);
      LargeIsOutOfRange(lex, coefficient);
    } else {
      ShiftedCorrect(lex, coefficient);
    }
  }

  /** `Int64Significant` in terms of the lexeme. */
  lemma SignificantIs(lex: Lexeme, p: Parts, coefficient: string, limit: nat)
    requires lex.Valid() && Matches(p, lex) && Significant(lex, coefficient) && Digits(StripSign(p.exponentText))
    requires limit == if HasPrefix(p.exponentText, '-') then |coefficient| else |p.fraction| + 20
    ensures Digits(coefficient)
    ensures ParseExponent(p, limit).Exceeds? ==> Int64Significant(p, coefficient) == OutOfRange
    ensures ParseExponent(p, limit).Fits?
            && Negated(HasPrefix(p.exponentText, '-'), ParseExponent(p, limit).value) == lex.Exp() ==>
              Int64Significant(p, coefficient) == Shifted(lex.negative, coefficient, lex.Scale())
  {
    hide ParseExponent, Shifted, NatOf;
  }

  /** An exponent beyond the limit is positive: a negative one that large would have left a
      fraction. */
  lemma ScaleTooLarge(lex: Lexeme, p: Parts, coefficient: string, limit: nat)
    requires lex.Valid() && Matches(p, lex) && Significant(lex, coefficient)
    requires limit == if HasPrefix(p.exponentText, '-') then |coefficient| else |p.fraction| + 20
    requires lex.Exp() > limit || lex.Exp() + limit < 0
    requires HasPrefix(p.exponentText, '-') ==> lex.Exp() <= 0
    requires !HasPrefix(p.exponentText, '-') ==> lex.Exp() >= 0
    ensures lex.Scale() >= 0 && |coefficient| + lex.Scale() > 19
  {
    hide NatOf, Digits;
  }

  /** The bounded exponent parse gives the exponent, or says it is too large. */
  lemma ParsedExponent(lex: Lexeme, p: Parts, limit: nat)
    requires lex.Valid() && Matches(p, lex) && Digits(StripSign(p.exponentText))
    ensures ParseExponent(p, limit).Exceeds? <==> lex.Exp() > limit || lex.Exp() + limit < 0
    ensures ParseExponent(p, limit).Fits? ==>
              Negated(HasPrefix(p.exponentText, '-'), ParseExponent(p, limit).value) == lex.Exp()
    ensures HasPrefix(p.exponentText, '-') ==> lex.Exp() <= 0
    ensures !HasPrefix(p.exponentText, '-') ==> lex.Exp() >= 0
  {
    StripSignOf(lex);
  }

  /** The leading digit that stays is not one of the trailing zeros. */
  lemma ZerosInside(digits: string)
    requires Digits(digits) && NatOf(digits) != 0
    ensures var c, t := TrimLeft(digits, '0'), TrimRight(digits, '0');
            && |digits| - |t| < |c|
            && forall i :: |c| - (|digits| - |t|) <= i < |c| ==> c[i] == '0'
  {
    NatOfTrimmedZero(digits);
    var c, t := TrimLeft(digits, '0'), TrimRight(digits, '0');
    assert digits[|digits| - |c|] == c[0];
  }

  lemma LargeIsOutOfRange(lex: Lexeme, coefficient: string)
    requires lex.Valid() && Significant(lex, coefficient)
    requires lex.Scale() >= 0 && |coefficient| + lex.Scale() > 19
    ensures Integral(lex.Value()) ==> Expected(lex.Value()) == OutOfRange
  {
    ValueUnsigned(lex);
    NatOfAtLeast(coefficient);
    hide Pow10, Scaled, NatOf;
    var n, s := lex.Magnitude(), lex.Scale();
    ScaledOfInt(n, s);
    AtLeastNineteen(n, |coefficient| - 1, s);
    IntegralNegated((n * Pow10(s)) as real);
  }

  lemma AtLeastNineteen(n: nat, a: nat, s: nat)
    requires n >= Pow10(a) && a + s >= 19
    ensures n * Pow10(s) >= 10_000_000_000_000_000_000
  {
    hide Pow10;
    Pow10Add(a, s);
    Pow10Mono(19, a + s);
    Product(Pow10(a), n, Pow10(s));
    PowerOfNineteen();
  }

  lemma Product(x: nat, y: nat, p: nat)
    requires x <= y
    ensures x * p <= y * p
  {
    Distribute(y, x, p);
  }

  lemma PowerOfNineteen()
    ensures Pow10(19) == 10_000_000_000_000_000_000
  {
    assert Pow10(5) == 100_000;
    assert Pow10(10) == 10_000_000_000 by { Pow10Add(5, 5); }
    assert Pow10(4) == 10_000;
    assert Pow10(9) == 1_000_000_000 by { Pow10Add(5, 4); }
    Pow10Add(10, 9);
  }

  lemma ShiftedCorrect(lex: Lexeme, coefficient: string)
    requires lex.Valid() && Significant(lex, coefficient) && Integral(lex.Value())
    ensures Shifted(lex.negative, coefficient, lex.Scale()) == Expected(lex.Value())
  {
    var s := lex.Scale();
    if s < 0 {
      CutZeros(lex.Magnitude(), coefficient, s);
      Parsed(lex, coefficient[..|coefficient| + s]);
    } else if |coefficient| + s > 19 {
      LargeIsOutOfRange(lex, coefficient);
    } else {
      AppendZeros(coefficient, s);
      Parsed(lex, coefficient + Zeros(s));
    }
  }

  lemma CutZeros(n: nat, coefficient: string, s: int)
    requires Digits(coefficient) && n == NatOf(coefficient) && -|coefficient| < s < 0
    requires forall i :: |coefficient| + s <= i < |coefficient| ==> coefficient[i] == '0'
    ensures Scaled(n as real, s) == NatOf(coefficient[..|coefficient| + s]) as real
  {
    var head, tail := coefficient[..|coefficient| + s], coefficient[|coefficient| + s..];
    assert coefficient == head + tail;
    NatOfConcat(head, tail);
    NatOfZeros(tail);
    ZerosAreScale(n, NatOf(head), -s, s);
  }

  lemma AppendZeros(coefficient: string, s: nat)
    requires Digits(coefficient)
    ensures Digits(coefficient + Zeros(s))
    ensures Scaled(NatOf(coefficient) as real, s) == NatOf(coefficient + Zeros(s)) as real
  {
    NatOfConcat(coefficient, Zeros(s));
    NatOfZeros(Zeros(s));
    ScaledOfInt(NatOf(coefficient), s);
  }

  lemma Parsed(lex: Lexeme, digits: string)
    requires lex.Valid() && Digits(digits)
    requires Scaled(lex.Magnitude() as real, lex.Scale()) == NatOf(digits) as real
    ensures ParseInt64(lex.negative, digits) == Expected(lex.Value())
  {
    ValueUnsigned(lex);
    IntegralNegated(NatOf(digits) as real);
  }

  /** A text that starts and ends with a digit, has no digit after a leading zero, and has one
      after every point. */
  predicate Shape(body: string) {
    && body != "" && IsDigit(body[0]) && IsDigit(body[|body| - 1])
    && (body[0] == '0' && |body| > 1 ==> body[1] in ".eE")
    && forall i :: 0 <= i < |body| - 1 && body[i] == '.' ==> IsDigit(body[i + 1])
  }

  lemma MantissaShape(lex: Lexeme)
    requires lex.Valid()
    ensures Shape(lex.Mantissa())
  {
    var m, k := lex.Mantissa(), |lex.integer|;
    assert forall i :: 0 <= i < k ==> m[i] == lex.integer[i] && IsDigit(m[i]);
    if lex.fraction.Fraction? {
      assert m[k] == '.' && forall i :: 0 <= i < |lex.fraction.digits| ==> m[k + 1 + i] == lex.fraction.digits[i];
      assert IsDigit(m[k + 1]) && IsDigit(m[|m| - 1]);
    }
  }

  lemma ExponentShape(mantissa: string, letter: char, sign: string, digits: string)
    requires Shape(mantissa) && letter in "eE" && sign in ["", "+", "-"] && Digits(digits) && digits != ""
    ensures Shape(mantissa + ([letter] + (sign + digits)))
  {
    var m := |mantissa|;
    var body, tail := mantissa + ([letter] + (sign + digits)), [letter] + (sign + digits);
    assert body[|body| - 1] == digits[|digits| - 1];
    assert forall i :: 0 <= i < |sign + digits| ==> (sign + digits)[i] != '.';
    assert forall i :: m <= i < |body| ==> body[i] == tail[i - m] && tail[i - m] != '.';
    assert mantissa[m - 1] != '.';
  }

  /** What no number may look like: it starts with a digit, perhaps after a minus, has no digit
      after a leading zero, and ends with a digit, so neither its fraction nor its exponent is
      empty. */
  lemma NumberShape(raw: string)
    requires IsNumber(raw)
    ensures Shape(TrimPrefix(raw, '-'))
  {
    hide Shape;
    var lex := Parse(raw);
    var e := lex.exponent;
    MantissaShape(lex);
    if e.Exponent? { ExponentShape(lex.Mantissa(), e.letter, e.sign, e.digits); }
    UnsignedOf(lex);
  }

  lemma UnsignedOf(lex: Lexeme)
    requires lex.Valid()
    ensures TrimPrefix(lex.Render(), '-') == lex.Unsigned()
    ensures lex.exponent.NoExponent? ==> lex.Unsigned() == lex.Mantissa()
  {
    assert lex.Unsigned()[0] == lex.integer[0];
    assert lex.Mantissa() + "" == lex.Mantissa();
  }
}
