/** Digit strings, powers of ten and the numbers they denote.

    Numbers here are natural and unbounded; only `Atoi` knows the range of a
    64-bit `int`. */
module Decimal {
  import opened Options
  import opened Text

  const MIN_INT64 := -0x8000_0000_0000_0000
  const MAX_INT64 := 0x7fff_ffff_ffff_ffff

  predicate IsDigit(c: char) { '0' <= c <= '9' }

  predicate Digits(s: string) { forall i :: 0 <= i < |s| ==> IsDigit(s[i]) }

  function DigitValue(c: char): (d: nat)
    requires IsDigit(c)
    ensures d <= 9 && (d == 0 <==> c == '0')
  {
    c as int - '0' as int
  }

  /** The number a digit string denotes, most significant digit first. */
  function NatOf(s: string): nat
    requires Digits(s)
  {
    if s == "" then 0 else 10 * NatOf(s[..|s| - 1]) + DigitValue(s[|s| - 1])
  }

  function Pow10(n: nat): (p: nat)
    ensures p >= 1
    ensures n > 0 ==> p % 10 == 0
  {
    if n == 0 then 1 else 10 * Pow10(n - 1)
  }

  /** `strconv.Itoa` of a non-negative number. */
  function Itoa(n: nat): (s: string)
    ensures Digits(s) && s != "" && NatOf(s) == n
    ensures n > 0 ==> s[0] != '0'
  {
    var last := ('0' as int + n % 10) as char;
    if n < 10 then [last] else
      var rest := Itoa(n / 10);
      assert (rest + [last])[..|rest|] == rest;
      rest + [last]
  }

  predicate IsSign(c: char) { c == '+' || c == '-' }

  /** `strconv.Atoi` with a 64-bit `int`. */
  function Atoi(s: string): Option<int> {
    var body := if s != "" && IsSign(s[0]) then s[1..] else s;
    if body == "" || !Digits(body) then None else
      var n := if s[0] == '-' then 0 - NatOf(body) else NatOf(body);
      if MIN_INT64 <= n <= MAX_INT64 then Some(n) else None
  }

  /** Digits are read as their number, with or without a sign, within 64 bits. */
  lemma AtoiReads(digits: string)
    requires Digits(digits) && digits != ""
    ensures Atoi(digits) == Atoi("+" + digits) ==
            if NatOf(digits) < 0x8000_0000_0000_0000 then Some(NatOf(digits)) else None
    ensures Atoi("-" + digits) == if NatOf(digits) <= 0x8000_0000_0000_0000 then Some(0 - NatOf(digits)) else None
  {
    hide NatOf;
    assert IsDigit(digits[0]);
    assert ("+" + digits)[1..] == digits && ("-" + digits)[1..] == digits;
  }

  lemma {:induction false} Pow10Add(a: nat, b: nat)
    ensures Pow10(a + b) == Pow10(a) * Pow10(b)
  {
    if a > 0 { Pow10Add(a - 1, b); }
  }

  lemma {:induction false} Pow10Mono(a: nat, b: nat)
    requires a <= b
    ensures Pow10(a) <= Pow10(b)
  {
    if a < b { Pow10Mono(a, b - 1); }
  }

  lemma {:induction false} NatOfConcat(a: string, b: string)
    requires Digits(a) && Digits(b)
    ensures Digits(a + b) && NatOf(a + b) == NatOf(a) * Pow10(|b|) + NatOf(b)
  {
    if b == "" {
      assert a + b == a;
    } else {
      var c := b[..|b| - 1];
      assert (a + b)[..|a + b| - 1] == a + c;
      NatOfConcat(a, c);
      assert NatOf(a + b) == 10 * NatOf(a + c) + DigitValue(b[|b| - 1]);
      assert NatOf(b) == 10 * NatOf(c) + DigitValue(b[|b| - 1]) && Pow10(|b|) == 10 * Pow10(|c|);
      hide NatOf, Pow10;
      Shift(NatOf(a), Pow10(|c|), Pow10(|b|));
    }
  }

  lemma Shift(x: int, y: int, z: int)
    requires z == 10 * y
    ensures x * z == 10 * (x * y)
  {
    Shuffle(x, y);
  }

  lemma Shuffle(x: int, y: int)
    ensures 10 * (x * y) == x * (10 * y)
  {}

  lemma {:induction false} NatOfBound(s: string)
    requires Digits(s)
    ensures NatOf(s) < Pow10(|s|)
  {
    if s != "" { NatOfBound(s[..|s| - 1]); }
  }

  lemma {:induction false} NatOfAtLeast(s: string)
    requires Digits(s) && s != "" && s[0] != '0'
    ensures NatOf(s) >= Pow10(|s| - 1)
  {
    if |s| > 1 {
      NatOfAtLeast(s[..|s| - 1]);
    } else {
      assert s[..0] == "";
    }
  }

  lemma {:induction false} NatOfZeros(s: string)
    requires Digits(s) && forall i :: 0 <= i < |s| ==> s[i] == '0'
    ensures NatOf(s) == 0
  {
    if s != "" { NatOfZeros(s[..|s| - 1]); }
  }

  lemma NatOfTrimLeft(s: string)
    requires Digits(s)
    ensures Digits(TrimLeft(s, '0')) && NatOf(TrimLeft(s, '0')) == NatOf(s)
  {
    var t := TrimLeft(s, '0');
    var z := s[..|s| - |t|];
    assert s == z + t;
    NatOfZeros(z);
    NatOfLeadingZeros(z, t);
  }

  lemma NatOfLeadingZeros(z: string, t: string)
    requires Digits(z) && Digits(t) && NatOf(z) == 0
    ensures NatOf(z + t) == NatOf(t)
  {
    hide Pow10, NatOf;
    NatOfConcat(z, t);
  }

  lemma NatOfTrimRight(s: string)
    requires Digits(s)
    ensures var t := TrimRight(s, '0');
            Digits(t) && NatOf(s) == NatOf(t) * Pow10(|s| - |t|) && (t != "" ==> NatOf(t) % 10 != 0)
  {
    hide TrimRight, NatOf, Pow10;
    var t := TrimRight(s, '0');
    var z := s[|t|..];
    assert s == t + z && |z| == |s| - |t|;
    assert forall i :: 0 <= i < |z| ==> z[i] == s[|t| + i];
    LastDigitStays(t);
    NatOfZeros(z);
    NatOfTrailingZeros(t, z, |s| - |t|);
  }

  lemma NatOfTrailingZeros(t: string, z: string, n: nat)
    requires Digits(t) && Digits(z) && NatOf(z) == 0 && n == |z|
    ensures NatOf(t + z) == NatOf(t) * Pow10(n)
  {
    hide Pow10, NatOf;
    NatOfConcat(t, z);
  }

  lemma LastDigitStays(t: string)
    requires t != "" ==> t[|t| - 1] != '0'
    ensures t != "" && Digits(t) ==> NatOf(t) % 10 != 0
  {
    if t != "" && Digits(t) { TenTimes(NatOf(t[..|t| - 1]), DigitValue(t[|t| - 1])); }
  }

  lemma TenTimes(x: nat, d: nat)
    requires 0 < d <= 9
    ensures (10 * x + d) % 10 != 0
  {}

  /** A digit string without leading zero denotes zero only when it is empty. */
  lemma NatOfTrimmedZero(s: string)
    requires Digits(s)
    ensures TrimLeft(s, '0') == "" <==> NatOf(s) == 0
  {
    NatOfTrimLeft(s);
    var t := TrimLeft(s, '0');
    if t != "" { NatOfAtLeast(t); }
  }

  /** Digit strings of one length are equal exactly when their numbers are. */
  lemma {:induction false} NatOfInjective(a: string, b: string)
    requires Digits(a) && Digits(b) && |a| == |b| && NatOf(a) == NatOf(b)
    ensures a == b
  {
    if a != "" {
      var c, d := a[..|a| - 1], b[..|b| - 1];
      SameDigits(NatOf(c), DigitValue(a[|a| - 1]), NatOf(d), DigitValue(b[|b| - 1]));
      NatOfInjective(c, d);
      hide NatOf;
      assert a == c + [a[|a| - 1]] && b == d + [b[|b| - 1]];
    }
  }

  lemma SameDigits(x: nat, d: nat, y: nat, e: nat)
    requires d <= 9 && e <= 9 && 10 * x + d == 10 * y + e
    ensures x == y && d == e
  {}

  /** A longer digit string without leading zero denotes a larger number. */
  lemma NatOfLonger(a: string, b: string)
    requires Digits(a) && Digits(b) && |a| > |b| && a[0] != '0'
    ensures NatOf(a) > NatOf(b)
  {
    NatOfAtLeast(a);
    NatOfBound(b);
    Pow10Mono(|b|, |a| - 1);
  }

  /** Digit strings without leading zeros are equal exactly when their numbers are. */
  lemma NatOfCanonical(a: string, b: string)
    requires Digits(a) && Digits(b) && NatOf(a) == NatOf(b)
    requires (a == "" || a[0] != '0') && (b == "" || b[0] != '0')
    ensures a == b
  {
    if |a| > |b| { NatOfLonger(a, b); }
    if |b| > |a| { NatOfLonger(b, a); }
    NatOfInjective(a, b);
  }

  /** On digit strings of one length, text order is numeric order. */
  lemma {:induction false} LessIsNumeric(a: string, b: string)
    requires Digits(a) && Digits(b) && |a| == |b|
    ensures Less(a, b) <==> NatOf(a) < NatOf(b)
    decreases |a|
  {
    if a != "" {
      var a', b' := a[1..], b[1..];
      FirstDigit(a);
      FirstDigit(b);
      NatOfBound(a');
      NatOfBound(b');
      LeadingDigitDecides(DigitValue(a[0]), DigitValue(b[0]), Pow10(|a'|), NatOf(a'), NatOf(b'));
      if a[0] == b[0] { LessIsNumeric(a', b'); }
    }
  }

  lemma FirstDigit(s: string)
    requires Digits(s) && s != ""
    ensures NatOf(s) == DigitValue(s[0]) * Pow10(|s| - 1) + NatOf(s[1..])
  {
    hide Pow10, NatOf;
    assert s == [s[0]] + s[1..];
    NatOfConcat([s[0]], s[1..]);
    NatOfDigit(s[0]);
  }

  lemma NatOfDigit(c: char)
    requires IsDigit(c)
    ensures NatOf([c]) == DigitValue(c)
  {
    assert [c][..0] == "";
  }

  lemma LeadingDigitDecides(c: nat, d: nat, p: nat, x: nat, y: nat)
    requires x < p && y < p
    ensures c < d ==> c * p + x < d * p + y
    ensures d < c ==> d * p + y < c * p + x
  {
    if c < d { Distribute(d, c, p); AtLeastOnce(d - c, p); }
    if d < c { Distribute(c, d, p); AtLeastOnce(c - d, p); }
  }

  lemma Distribute(x: int, y: int, p: int)
    ensures (x - y) * p == x * p - y * p
  {}

  lemma AtLeastOnce(k: nat, p: nat)
    requires k >= 1
    ensures k * p >= p
  {}
}
