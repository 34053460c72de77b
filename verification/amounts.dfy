/**
  Monetary amounts as the finance tracker sees them.

  The tracker keeps every amount as the text typed into the form and turns it
  into a number with JavaScript's `parseFloat` when it adds up totals (and
  for display).
  This module models the JavaScript number values that can arise (finite
  values, the two infinities and NaN) with exact real arithmetic in place of
  binary floating point, JavaScript addition on them, and `parseFloat`
  (section 19.2.4 of ECMA-262) over the StrDecimalLiteral grammar (section
  7.1.4.1 of ECMA-262): the longest valid prefix after leading white space.
 */
module Amounts {

  /** A JavaScript number, with exact reals standing in for finite doubles. */
  datatype Number = Finite(value: real) | PosInf | NegInf | NaN

  /** JavaScript `+` on numbers: NaN absorbs, opposite infinities give NaN.
      The sum of two finite values is exact: it is neither rounded to a double
      nor overflows to an infinity. */
  function Add(a: Number, b: Number): (r: Number)
    ensures a.NaN? || b.NaN? ==> r == NaN
    ensures (a == PosInf && b == NegInf) || (a == NegInf && b == PosInf) ==> r == NaN
    ensures a == PosInf && b != NaN && b != NegInf ==> r == PosInf
    ensures a == NegInf && b != NaN && b != PosInf ==> r == NegInf
    ensures a.Finite? ==> r == (if b.Finite? then Finite(a.value + b.value) else b)
  {
    match (a, b)
    case (NaN, _) => NaN
    case (_, NaN) => NaN
    case (PosInf, NegInf) => NaN
    case (NegInf, PosInf) => NaN
    case (PosInf, _) => PosInf
    case (_, PosInf) => PosInf
    case (NegInf, _) => NegInf
    case (_, NegInf) => NegInf
    case (Finite(x), Finite(y)) => Finite(x + y)
  }

  /** Unary minus on numbers. */
  function Negate(a: Number): Number
  {
    match a
    case Finite(x) => Finite(-x)
    case PosInf => NegInf
    case NegInf => PosInf
    case NaN => NaN
  }

  /** Zero is a two-sided identity of the model's addition, the start value of
      every total. (JavaScript's own identity is -0, which the model lacks.) */
  lemma AddZero(a: Number)
    ensures Add(Finite(0.0), a) == a
    ensures Add(a, Finite(0.0)) == a
  {
  }

  /** Addition is commutative on every pair of numbers, NaN and infinities included. */
  lemma AddCommutative(a: Number, b: Number)
    ensures Add(a, b) == Add(b, a)
  {
  }

  /** Addition is associative: the order of summation cannot change a total. */
  lemma AddAssociative(a: Number, b: Number, c: Number)
    ensures Add(Add(a, b), c) == Add(a, Add(b, c))
  {
  }

  // ---------------------------------------------------------------------------
  // Characters

  /** StrWhiteSpaceChar of ECMA-262: the white space and line terminators that
      `parseFloat` skips before the literal. */
  predicate IsWhiteSpace(c: char)
  {
    || c == '\t' || c == '\U{B}' || c == '\U{C}' || c == ' ' || c == '\U{A0}'
    || c == '\U{FEFF}' || c == '\n' || c == '\r' || c == '\U{2028}' || c == '\U{2029}'
    || c == '\U{1680}' || ('\U{2000}' <= c <= '\U{200A}')
    || c == '\U{202F}' || c == '\U{205F}' || c == '\U{3000}'
  }

  predicate IsDigit(c: char)
  {
    '0' <= c <= '9'
  }

  predicate AllDigits(s: string)
  {
    forall i :: 0 <= i < |s| ==> IsDigit(s[i])
  }

  function DigitValue(c: char): (d: nat)
    requires IsDigit(c)
    ensures d < 10
  {
    (c - '0') as nat
  }

  function DigitChar(d: nat): (c: char)
    requires d < 10
    ensures IsDigit(c) && DigitValue(c) == d
  {
    ('0' as int + d) as char
  }

  // ---------------------------------------------------------------------------
  // Scanning

  /** The text with its leading white space removed. */
  function TrimStart(s: string): (t: string)
    ensures |t| <= |s| && t == s[|s| - |t|..]
    ensures forall i :: 0 <= i < |s| - |t| ==> IsWhiteSpace(s[i])
    ensures |t| > 0 ==> !IsWhiteSpace(t[0])
  {
    if |s| > 0 && IsWhiteSpace(s[0]) then TrimStart(s[1..]) else s
  }

  /** The longest run of decimal digits at the start of the text. */
  function LeadingDigits(s: string): (d: string)
    ensures d <= s
    ensures AllDigits(d)
    ensures |d| < |s| ==> !IsDigit(s[|d|])
  {
    if |s| > 0 && IsDigit(s[0]) then [s[0]] + LeadingDigits(s[1..]) else []
  }

  /** The natural number a digit string denotes, most significant digit first. */
  function DigitsValue(ds: string): (n: nat)
    requires AllDigits(ds)
    ensures n < Pow10(|ds|)
  {
    if |ds| == 0 then 0
    else DigitsValue(ds[..|ds| - 1]) * 10 + DigitValue(ds[|ds| - 1])
  }

  function Pow10(k: nat): (p: nat)
    ensures p >= 1
  {
    if k == 0 then 1 else 10 * Pow10(k - 1)
  }

  /** The exact real m * 10^e, for a possibly negative exponent e. */
  function Decimal(m: nat, e: int): real
  {
    if e >= 0 then (m * Pow10(e)) as real else m as real / Pow10(-e) as real
  }

  /** The exponent an ExponentPart at the start of the text denotes; 0 when the
      text does not start with one (an `e` without digits is not consumed). */
  function ExponentOf(s: string): (e: int)
    ensures |s| == 0 || (s[0] != 'e' && s[0] != 'E') ==> e == 0
  {
    if |s| > 0 && (s[0] == 'e' || s[0] == 'E') then
      var r := s[1..];
      var signed := |r| > 0 && (r[0] == '-' || r[0] == '+');
      var ds := LeadingDigits(if signed then r[1..] else r);
      if |ds| == 0 then 0
      else if signed && r[0] == '-' then -(DigitsValue(ds) as int)
      else DigitsValue(ds)
    else 0
  }

  /** StrUnsignedDecimalLiteral: `Infinity`, or digits with an optional
      fraction and exponent, at least one digit in the mantissa. */
  function ParseUnsigned(u: string): (r: Number)
    ensures r != NegInf
    ensures |u| == 0 || !(IsDigit(u[0]) || u[0] == '.' || u[0] == 'I') ==> r == NaN
  {
    if "Infinity" <= u then PosInf
    else
      var ip := LeadingDigits(u);
      ParseFraction(ip, u[|ip|..])
  }

  /** The rest of a literal after its integer digits `ip`: an optional `.`
      with fraction digits, then an optional exponent. */
  function ParseFraction(ip: string, rest: string): (r: Number)
    requires AllDigits(ip)
    ensures r.Finite? || r.NaN?
    ensures |ip| == 0 && |rest| == 0 ==> r == NaN
  {
    if |rest| > 0 && rest[0] == '.' then
      var fp := LeadingDigits(rest[1..]);
      DecimalValue(ip, fp, rest[1 + |fp|..])
    else DecimalValue(ip, [], rest)
  }

  /** The value of integer digits `ip` and fraction digits `fp` scaled by the
      exponent at the start of `tail`; NaN when the mantissa has no digit. */
  function DecimalValue(ip: string, fp: string, tail: string): (r: Number)
    requires AllDigits(ip) && AllDigits(fp)
    ensures r.NaN? <==> |ip| + |fp| == 0
  {
    if |ip| + |fp| == 0 then NaN
    else Finite(Decimal(DigitsValue(ip + fp), ExponentOf(tail) - |fp|))
  }

  /** JavaScript `parseFloat` on a string: skip leading white space, read an
      optional sign, then the longest StrUnsignedDecimalLiteral; NaN when no
      prefix is a literal. */
  function ParseAmount(s: string): (r: Number)
    ensures s == "" ==> r == NaN
    ensures var t := TrimStart(s);
      |t| == 0 || !(IsDigit(t[0]) || t[0] == '+' || t[0] == '-' || t[0] == '.' || t[0] == 'I') ==> r == NaN
  {
    var t := TrimStart(s);
    if |t| > 0 && t[0] == '-' then Negate(ParseUnsigned(t[1..]))
    else if |t| > 0 && t[0] == '+' then ParseUnsigned(t[1..])
    else ParseUnsigned(t)
  }

  // ---------------------------------------------------------------------------
  // Decimal text

  /** Decimal digits of a natural number, no leading zeros. */
  function NatDigits(n: nat): (ds: string)
    ensures |ds| > 0 && AllDigits(ds)
    decreases n
  {
    if n < 10 then [DigitChar(n)] else NatDigits(n / 10) + [DigitChar(n % 10)]
  }

  /** The text of an amount of `cents` with exactly two decimals and a leading
      minus sign when negative. It is the text the round-trip lemma reads
      back; display formatting is not part of this model. */
  function TwoDecimals(cents: int): string
  {
    if cents < 0 then ['-'] + UnsignedTwoDecimals(-cents) else UnsignedTwoDecimals(cents)
  }

  function UnsignedTwoDecimals(n: nat): (s: string)
    ensures |s| > 0 && IsDigit(s[0])
  {
    var ip := NatDigits(n / 100);
    assert (ip + ['.'] + [DigitChar((n / 10) % 10), DigitChar(n % 10)])[0] == ip[0];
    ip + ['.'] + [DigitChar((n / 10) % 10), DigitChar(n % 10)]
  }

  // ---------------------------------------------------------------------------
  // Lemmas

  lemma DigitsValueSnoc(ds: string, c: char)
    requires AllDigits(ds) && IsDigit(c)
    ensures AllDigits(ds + [c])
    ensures DigitsValue(ds + [c]) == DigitsValue(ds) * 10 + DigitValue(c)
  {
    assert (ds + [c])[..|ds|] == ds;
  }

  /** Reading back the digits of n gives n. */
  lemma {:induction false} DigitsValueOfNatDigits(n: nat)
    ensures DigitsValue(NatDigits(n)) == n
    decreases n
  {
    if n < 10 {
      assert NatDigits(n) == [DigitChar(n)];
      assert NatDigits(n)[..0] == [];
    } else {
      DigitsValueOfNatDigits(n / 10);
      DigitsValueSnoc(NatDigits(n / 10), DigitChar(n % 10));
    }
  }

  /** The digit scan stops exactly at the first character that is not a digit. */
  lemma {:induction false} LeadingDigitsOfDigitsThen(d: string, r: string)
    requires AllDigits(d)
    requires |r| == 0 || !IsDigit(r[0])
    ensures LeadingDigits(d + r) == d
    decreases |d|
  {
    if |d| == 0 {
      assert d + r == r;
    } else {
      assert (d + r)[1..] == d[1..] + r;
      LeadingDigitsOfDigitsThen(d[1..], r);
      assert d == [d[0]] + d[1..];
    }
  }

  /** Trimming ignores any white space put in front of the text. */
  lemma {:induction false} TrimStartAfterWhiteSpace(w: string, s: string)
    requires forall i :: 0 <= i < |w| ==> IsWhiteSpace(w[i])
    ensures TrimStart(w + s) == TrimStart(s)
    decreases |w|
  {
    if |w| > 0 {
      assert (w + s)[1..] == w[1..] + s;
      TrimStartAfterWhiteSpace(w[1..], s);
    } else {
      assert w + s == s;
    }
  }

  /** White space before an amount does not change what `parseFloat` reads. */
  lemma LeadingWhiteSpaceIgnored(w: string, s: string)
    requires forall i :: 0 <= i < |w| ==> IsWhiteSpace(w[i])
    ensures ParseAmount(w + s) == ParseAmount(s)
  {
    TrimStartAfterWhiteSpace(w, s);
  }

  lemma CentsSplit(n: nat)
    ensures (n / 100) * 100 + ((n / 10) % 10) * 10 + n % 10 == n
  {
    assert n == (n / 10) * 10 + n % 10;
    assert n / 10 == (n / 100) * 10 + (n / 10) % 10;
  }

  lemma AllDigitsConcat(a: string, b: string)
    requires AllDigits(a) && AllDigits(b)
    ensures AllDigits(a + b)
  {
    forall i | 0 <= i < |a + b|
      ensures IsDigit((a + b)[i])
    {
      if i < |a| { assert (a + b)[i] == a[i]; } else { assert (a + b)[i] == b[i - |a|]; }
    }
  }

  /** After a non-empty run of integer digits the scan moves on to the fraction. */
  lemma ParseUnsignedDigitsThen(ip: string, after: string)
    requires |ip| > 0 && AllDigits(ip)
    requires |after| == 0 || !IsDigit(after[0])
    ensures ParseUnsigned(ip + after) == ParseFraction(ip, after)
  {
    var u := ip + after;
    LeadingDigitsOfDigitsThen(ip, after);
    assert u[0] == ip[0];
    assert u[|ip|..] == after;
  }

  /** A `.` and fraction digits followed by text that is not a digit. */
  lemma ParseFractionDot(ip: string, fp: string, rest: string)
    requires AllDigits(ip) && AllDigits(fp)
    requires |rest| == 0 || !IsDigit(rest[0])
    ensures ParseFraction(ip, ['.'] + fp + rest) == DecimalValue(ip, fp, rest)
  {
    var after := ['.'] + fp + rest;
    assert after[1..] == fp + rest;
    LeadingDigitsOfDigitsThen(fp, rest);
    assert after[1 + |fp|..] == rest;
  }

  /** Integer digits, a `.` and fraction digits, then text that is not a digit. */
  lemma ParseUnsignedMantissa(ip: string, fp: string, rest: string)
    requires |ip| > 0 && AllDigits(ip) && AllDigits(fp)
    requires |rest| == 0 || !IsDigit(rest[0])
    ensures ParseUnsigned(ip + ['.'] + fp + rest) == DecimalValue(ip, fp, rest)
  {
    var after := ['.'] + fp + rest;
    assert ip + ['.'] + fp + rest == ip + after;
    ParseUnsignedDigitsThen(ip, after);
    ParseFractionDot(ip, fp, rest);
  }

  /** Without an exponent the mantissa is scaled by its fraction digits only. */
  lemma DecimalValueNoExponent(ip: string, fp: string, rest: string)
    requires |ip| > 0 && AllDigits(ip) && AllDigits(fp)
    requires |rest| == 0 || (rest[0] != 'e' && rest[0] != 'E')
    ensures AllDigits(ip + fp)
    ensures DecimalValue(ip, fp, rest) == Finite(Decimal(DigitsValue(ip + fp), -|fp|))
  {
    AllDigitsConcat(ip, fp);
    assert ExponentOf(rest) == 0;
  }

  /** A mantissa with a non-empty integer part and a fraction, followed by
      text that cannot continue the literal, reads as the exact decimal. */
  lemma ParseUnsignedDecimal(ip: string, fp: string, rest: string)
    requires |ip| > 0 && AllDigits(ip) && AllDigits(fp)
    requires |rest| == 0 || !(IsDigit(rest[0]) || rest[0] == 'e' || rest[0] == 'E')
    ensures AllDigits(ip + fp)
    ensures ParseUnsigned(ip + ['.'] + fp + rest)
         == Finite(Decimal(DigitsValue(ip + fp), -|fp|))
  {
    ParseUnsignedMantissa(ip, fp, rest);
    DecimalValueNoExponent(ip, fp, rest);
  }

  /** Unsigned two-decimal text followed by anything that cannot continue the
      literal reads back as the exact amount. */
  lemma UnsignedTwoDecimalsReadBack(n: nat, rest: string)
    requires |rest| == 0 || !(IsDigit(rest[0]) || rest[0] == 'e' || rest[0] == 'E')
    ensures ParseUnsigned(UnsignedTwoDecimals(n) + rest) == Finite(n as real / 100.0)
  {
    var ip := NatDigits(n / 100);
    var a, b := DigitChar((n / 10) % 10), DigitChar(n % 10);
    assert UnsignedTwoDecimals(n) + rest == ip + ['.'] + [a, b] + rest;
    ParseUnsignedDecimal(ip, [a, b], rest);
    CentsDigitsValue(n);
    DecimalHundredths(n);
  }

  lemma DecimalHundredths(n: nat)
    ensures Decimal(n, -2) == n as real / 100.0
  {
    assert Pow10(2) == 100;
  }

  /** The digits of the whole part followed by the two cent digits denote the
      number of cents. */
  lemma CentsDigitsValue(n: nat)
    ensures var ds := NatDigits(n / 100) + [DigitChar((n / 10) % 10), DigitChar(n % 10)];
      AllDigits(ds) && DigitsValue(ds) == n
  {
    var ip := NatDigits(n / 100);
    var a, b := DigitChar((n / 10) % 10), DigitChar(n % 10);
    DigitsValueSnoc(ip, a);
    DigitsValueSnoc(ip + [a], b);
    assert ip + [a, b] == ip + [a] + [b];
    DigitsValueOfNatDigits(n / 100);
    CentsSplit(n);
  }

  lemma NegativeTwoDecimalsReadBack(n: nat, rest: string)
    requires |rest| == 0 || !(IsDigit(rest[0]) || rest[0] == 'e' || rest[0] == 'E')
    ensures ParseAmount(['-'] + (UnsignedTwoDecimals(n) + rest)) == Negate(Finite(n as real / 100.0))
  {
    var body := UnsignedTwoDecimals(n) + rest;
    assert body[0] == UnsignedTwoDecimals(n)[0];
    UnsignedTwoDecimalsReadBack(n, rest);
    ParseAmountMinusDigit(body);
  }

  lemma NegatedHundredths(n: nat, cents: int)
    requires cents == -(n as int)
    ensures Negate(Finite(n as real / 100.0)) == Finite(cents as real / 100.0)
  {
    assert cents as real == -(n as real);
  }

  /** Text starting with a digit is read as an unsigned literal. */
  lemma ParseAmountDigitStart(u: string)
    requires |u| > 0 && IsDigit(u[0])
    ensures ParseAmount(u) == ParseUnsigned(u)
  {
    TrimStartNoWhiteSpace(u);
    assert u[0] != '-' && u[0] != '+';
  }

  lemma TrimStartNoWhiteSpace(s: string)
    requires |s| > 0 && !IsWhiteSpace(s[0])
    ensures TrimStart(s) == s
  {
  }

  /** A minus sign before a digit negates the unsigned literal after it. */
  lemma ParseAmountMinusDigit(u: string)
    requires |u| > 0 && IsDigit(u[0])
    ensures ParseAmount(['-'] + u) == Negate(ParseUnsigned(u))
  {
    var s := ['-'] + u;
    TrimStartNoWhiteSpace(s);
    assert s[1..] == u;
  }

  /** The two-decimal text of an amount of cents, followed by text that cannot
      continue a literal (in particular, nothing), parses to exactly that many
      hundredths. */
  lemma TwoDecimalsRoundTrip(cents: int, rest: string)
    requires |rest| == 0 || !(IsDigit(rest[0]) || rest[0] == 'e' || rest[0] == 'E')
    ensures ParseAmount(TwoDecimals(cents) + rest) == Finite(cents as real / 100.0)
  {
    if cents < 0 {
      var n: nat := -cents;
      var body := UnsignedTwoDecimals(n) + rest;
      assert TwoDecimals(cents) + rest == ['-'] + body;
      NegativeTwoDecimalsReadBack(n, rest);
      NegatedHundredths(n, cents);
    } else {
      var body := UnsignedTwoDecimals(cents) + rest;
      UnsignedTwoDecimalsReadBack(cents, rest);
      assert TwoDecimals(cents) + rest == body;
      ParseAmountDigitStart(body);
    }
  }

  /** An exponent of digits after `e` is read in full. */
  lemma ExponentOfDigits(k: nat)
    ensures ExponentOf(['e'] + NatDigits(k)) == k
  {
    var ds := NatDigits(k);
    var s := ['e'] + ds;
    assert s[1..] == ds;
    assert ds + [] == ds;
    LeadingDigitsOfDigitsThen(ds, []);
    DigitsValueOfNatDigits(k);
  }

  lemma DecimalValueWithExponent(m: nat, k: nat)
    ensures DecimalValue(NatDigits(m), [], ['e'] + NatDigits(k)) == Finite((m * Pow10(k)) as real)
  {
    var ip := NatDigits(m);
    var after := ['e'] + NatDigits(k);
    assert ip + [] == ip;
    assert DecimalValue(ip, [], after) == Finite(Decimal(DigitsValue(ip), ExponentOf(after) - 0));
    ExponentOfDigits(k);
    DigitsValueOfNatDigits(m);
    assert Decimal(m, k) == (m * Pow10(k)) as real;
  }

  /** Integer digits followed by an exponent scale the integer by a power of ten. */
  lemma ExponentNotation(m: nat, k: nat)
    ensures ParseAmount(NatDigits(m) + ['e'] + NatDigits(k)) == Finite((m * Pow10(k)) as real)
  {
    var ip := NatDigits(m);
    var after := ['e'] + NatDigits(k);
    var u := ip + after;
    assert ip + ['e'] + NatDigits(k) == u;
    assert u[0] == ip[0];
    ParseAmountDigitStart(u);
    ParseUnsignedDigitsThen(ip, after);
    assert ParseFraction(ip, after) == DecimalValue(ip, [], after);
    DecimalValueWithExponent(m, k);
  }
}
