/** The IDs of a batch command.

    There is one key for each number, and the distinct IDs stay in the order of the input. */
module BatchIds {
  import opened Text
  import opened Decimal
  import opened JsonNumber
  import opened IdList

  /** `big.Int.String`. */
  function IntText(n: int): (s: string)
    ensures 'e' !in s && s != ""
  {
    if n < 0 then
      var t := Itoa(-n);
      assert forall c :: c in t ==> IsDigit(c);
      "-" + t
    else
      var t := Itoa(n);
      assert forall c :: c in t ==> IsDigit(c);
      t
  }

  lemma IntTextInjective(m: int, n: int)
    requires IntText(m) == IntText(n)
    ensures m == n
  {
    var s, t := IntText(m), IntText(n);
    assert s[0] == '-' <==> m < 0 by { assert m >= 0 ==> IsDigit(s[0]); }
    assert t[0] == '-' <==> n < 0 by { assert n >= 0 ==> IsDigit(t[0]); }
    if m < 0 {
      assert s[1..] == Itoa(-m) && t[1..] == Itoa(-n);
    }
  }

  /** One text per integral number: the digits without outer zeros and the power
      of ten that is left over. */
  function CanonicalIntegerKey(raw: string): string
    requires IsNumber(raw)
  {
    TakeApartOfNumber(raw);
    KeyOfParts(TakeApart(raw))
  }

  function KeyOfParts(p: Parts): string
    requires Digits(StripSign(p.exponentText))
  {
    var digits := TrimLeft(p.integer + p.fraction, '0');
    if digits == "" then "0" else
      var trailingZeros := |digits| - |TrimRight(digits, '0')|;
      var coefficient := TrimRight(digits, '0');
      var fractionDigits := if p.hasFraction then |p.fraction| else 0;
      Reduced(p.negative, coefficient, ExponentOfText(p) + (trailingZeros - fractionDigits)).Key()
  }

  function ExponentOfText(p: Parts): int
    requires Digits(StripSign(p.exponentText))
  {
    if p.hasExponent then BigInt(p.exponentText) else 0
  }

  /** `big.Int.SetString(text, 10)` of an optional sign and digits. */
  function BigInt(text: string): int
    requires Digits(StripSign(text))
  {
    Negated(HasPrefix(text, '-'), NatOf(StripSign(text)))
  }

  /** The number a valid text denotes. */
  function NumberOf(raw: string): real
    requires IsNumber(raw)
  {
    Parse(raw).Value()
  }

  /** A signed digit string that does not end in zero. */
  datatype Reduced = Reduced(negative: bool, coefficient: string, scale: int) {
    predicate Valid() {
      && Digits(coefficient) && coefficient != "" && coefficient[0] != '0'
      && NatOf(coefficient) % 10 != 0
    }

    function Signed(): int
      requires Valid()
    {
      Negated(negative, NatOf(coefficient))
    }

    function Text(): string { (if negative then "-" else "") + coefficient }

    function Key(): string { Text() + "e" + IntText(scale) }
  }

  function Reduce(lex: Lexeme): Reduced
    requires lex.Valid()
  {
    lex.CoefficientDigits();
    var digits := TrimLeft(lex.Coefficient(), '0');
    var coefficient := TrimRight(digits, '0');
    Reduced(lex.negative, coefficient, lex.Scale() + |digits| - |coefficient|)
  }

  lemma ReduceCorrect(lex: Lexeme)
    requires lex.Valid() && lex.Magnitude() != 0
    ensures Reduce(lex).Valid()
    ensures lex.Value() == Scaled(Reduce(lex).Signed() as real, Reduce(lex).scale)
  {
    hide Scaled, Pow10, TrimLeft, TrimRight, NatOf;
    var digits := TrimLeft(lex.Coefficient(), '0');
    NatOfTrimLeft(lex.Coefficient());
    ReducedDigits(digits, lex.Magnitude(), lex.Scale());
    var c := TrimRight(digits, '0');
    SameSign(lex.negative, lex.Magnitude(), lex.Scale(), NatOf(c), lex.Scale() + |digits| - |c|);
  }

  lemma ReducedDigits(digits: string, m: nat, k: int)
    requires Digits(digits) && NatOf(digits) == m != 0 && (digits == "" || digits[0] != '0')
    ensures var c := TrimRight(digits, '0');
            && Reduced(false, c, 0).Valid()
            && Scaled(m as real, k) == Scaled(NatOf(c) as real, k + |digits| - |c|)
  {
    MoveZeros(digits, k);
    var c := TrimRight(digits, '0');
    assert c[0] == digits[0];
  }

  lemma SameSign(negative: bool, m: nat, k: int, c: nat, l: int)
    requires Scaled(m as real, k) == Scaled(c as real, l)
    ensures Scaled(Negated(negative, m) as real, k) == Scaled(Negated(negative, c) as real, l)
  {
    ScaledNegated(m as real, k);
    ScaledNegated(c as real, l);
  }

  lemma KeyOf(lex: Lexeme)
    requires lex.Valid()
    ensures IsNumber(lex.Render())
    ensures CanonicalIntegerKey(lex.Render()) == if lex.Magnitude() == 0 then "0" else Reduce(lex).Key()
  {
    ParseOf(lex);
    TakeApartOf(lex);
    TakeApartOfNumber(lex.Render());
    NatOfTrimmedZero(lex.Coefficient());
    KeyOfPartsOf(lex, TakeApart(lex.Render()));
  }

  lemma KeyOfPartsOf(lex: Lexeme, p: Parts)
    requires lex.Valid() && Matches(p, lex) && Digits(StripSign(p.exponentText))
    ensures KeyOfParts(p) == if TrimLeft(lex.Coefficient(), '0') == "" then "0" else Reduce(lex).Key()
  {
    hide Scaled, Pow10, TrimLeft, TrimRight, NatOf, BigInt, IntText, ExponentOfText, Reduced.Key;
    ExponentOfParts(lex, p);
    assert p.integer + p.fraction == lex.Coefficient();
    KeyOfReducedParts(lex, p);
  }

  lemma KeyOfReducedParts(lex: Lexeme, p: Parts)
    requires lex.Valid() && Matches(p, lex) && Digits(StripSign(p.exponentText))
    requires ExponentOfText(p) == lex.Exp() && p.integer + p.fraction == lex.Coefficient()
    ensures KeyOfParts(p) == if TrimLeft(lex.Coefficient(), '0') == "" then "0" else Reduce(lex).Key()
  {
    hide TrimLeft, TrimRight, BigInt, IntText, ExponentOfText, Reduced.Key, StripSign;
    var digits := TrimLeft(p.integer + p.fraction, '0');
    var c := TrimRight(digits, '0');
    var places := if p.hasFraction then |p.fraction| else 0;
    assert places == |lex.FractionDigits()|;
    assert Reduced(p.negative, c, ExponentOfText(p) + (|digits| - |c| - places)) == Reduce(lex);
  }

  lemma ExponentOfParts(lex: Lexeme, p: Parts)
    requires lex.Valid() && Matches(p, lex) && Digits(StripSign(p.exponentText))
    ensures ExponentOfText(p) == lex.Exp()
  {
    StripSignOf(lex);
  }

  lemma KeyOfReduced(a: Reduced, b: Reduced)
    requires a.Valid() && b.Valid()
    ensures a.Key() == b.Key() ==> a == b
    ensures a.Key() != "0"
  {
    SignedText(a);
    SignedText(b);
    assert 'e' in a.Key() by { assert a.Key()[|a.Text()|] == 'e'; }
    if a.Key() == b.Key() {
      IntTextInjective(a.scale, b.scale);
      assert a.Text() == b.Text();
      TextInjective(a, b);
    }
  }

  lemma TextInjective(a: Reduced, b: Reduced)
    requires a.Valid() && b.Valid() && a.Text() == b.Text()
    ensures a.negative == b.negative && a.coefficient == b.coefficient
  {
    TextSign(a);
    TextSign(b);
  }

  lemma TextSign(a: Reduced)
    requires a.Valid()
    ensures a.Text() != "" && (a.Text()[0] == '-' <==> a.negative)
    ensures a.coefficient == TrimPrefix(a.Text(), '-')
  {
    assert IsDigit(a.coefficient[0]);
    if a.negative {
      assert a.Text()[1..] == a.coefficient;
    } else {
      assert a.Text() == a.coefficient;
    }
  }

  lemma SignedText(a: Reduced)
    requires a.Valid()
    ensures a.Key() == a.Text() + ['e'] + IntText(a.scale)
    ensures CutAt(a.Key(), 'e') == Cut(a.Text(), IntText(a.scale), true)
  {
    assert forall c :: c in a.coefficient ==> IsDigit(c);
    CutAtFirst(a.Text(), 'e', IntText(a.scale));
  }

  lemma ReducedUnique(a: Reduced, b: Reduced)
    requires a.Valid() && b.Valid()
    requires Scaled(a.Signed() as real, a.scale) == Scaled(b.Signed() as real, b.scale)
    ensures a == b
  {
    NormalisedUnique(a.Signed(), a.scale, b.Signed(), b.scale);
    assert NatOf(a.coefficient) == NatOf(b.coefficient);
    NatOfCanonical(a.coefficient, b.coefficient);
  }

  /** Zero is the only number whose digits are all zeros. */
  lemma ZeroValue(lex: Lexeme)
    requires lex.Valid()
    ensures lex.Value() == 0.0 <==> lex.Magnitude() == 0
  {
    ScaledZero(lex.Scale());
    if lex.Value() == 0.0 { ScaledInjective(Negated(lex.negative, lex.Magnitude()) as real, 0.0, lex.Scale()); }
  }

  /** Two numbers have one key exactly when they are the same number. */
  lemma KeyIsNumber(a: Lexeme, b: Lexeme)
    requires a.Valid() && b.Valid()
    ensures IsNumber(a.Render()) && IsNumber(b.Render())
    ensures CanonicalIntegerKey(a.Render()) == CanonicalIntegerKey(b.Render()) <==> a.Value() == b.Value()
  {
    KeyOf(a);
    KeyOf(b);
    ZeroValue(a);
    ZeroValue(b);
    if a.Magnitude() != 0 && b.Magnitude() != 0 {
      ReduceCorrect(a);
      ReduceCorrect(b);
      KeyOfReduced(Reduce(a), Reduce(b));
      if a.Value() == b.Value() { ReducedUnique(Reduce(a), Reduce(b)); }
    } else if a.Magnitude() != 0 {
      ReduceCorrect(a);
      KeyOfReduced(Reduce(a), Reduce(a));
    } else if b.Magnitude() != 0 {
      ReduceCorrect(b);
      KeyOfReduced(Reduce(b), Reduce(b));
    }
  }

  lemma KeyIsNumberRaw(a: string, b: string)
    requires IsNumber(a) && IsNumber(b)
    ensures CanonicalIntegerKey(a) == CanonicalIntegerKey(b) <==> NumberOf(a) == NumberOf(b)
  {
    KeyIsNumber(Parse(a), Parse(b));
  }

  // ---------------------------------------------------------- collecting IDs

  /** The key of a token and its number; neither is asked for unless the token is one. */
  function TokenKey(token: string): string { if IsNumber(token) then CanonicalIntegerKey(token) else "" }

  function TokenNumber(token: string): real { if IsNumber(token) then NumberOf(token) else 0.0 }

  lemma IntegerIsNumber(token: string)
    ensures IsInteger(token) ==> IsNumber(token)
  {
    hide IsInteger, IsNumber;
  }

  /** Collecting by canonical key is collecting by number: the first spelling of each. */
  lemma CollectsByNumber(raw: seq<string>)
    ensures Collected(raw, IsInteger, TokenKey) == Collected(raw, IsInteger, TokenNumber)
  {
    hide IsInteger, IsNumber, CanonicalIntegerKey, NumberOf, NonBlank, Firsts, FirstBad;
    var tokens := NonBlank(raw);
    if AllAccepted(tokens, IsInteger) {
      forall i, j | 0 <= i < |tokens| && 0 <= j < |tokens|
        ensures TokenKey(tokens[i]) == TokenKey(tokens[j]) <==> TokenNumber(tokens[i]) == TokenNumber(tokens[j]) {
        IntegerIsNumber(tokens[i]);
        IntegerIsNumber(tokens[j]);
        KeyIsNumberRaw(tokens[i], tokens[j]);
      }
      SameFirsts(tokens, TokenKey, TokenNumber);
    }
  }
}
