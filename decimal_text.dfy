/** The textual side of Python's `decimal.Decimal`: the value that
    `Decimal(text)` denotes, following the numeric-string grammar of the
    `decimal` module, and the text that `str(n)` gives for an `int`. */
module DecimalText {
  import opened Errors
  import opened Text

  /** A `Decimal` value. Finite values are exact, hence `real`; the sign
      of zero is not kept. */
  datatype Decimal = Finite(v: real) | Infinity(negative: bool) | NaN

  predicate IsDigit(c: char) {
    '0' <= c <= '9'
  }

  predicate AllDigits(s: string) {
    forall i :: 0 <= i < |s| ==> IsDigit(s[i])
  }

  /** The number that a string of decimal digits denotes (most significant
      digit first). */
  function DigitsValue(ds: string): (v: nat)
    requires AllDigits(ds)
  {
    if ds == [] then 0
    else DigitsValue(ds[..|ds| - 1]) * 10 + (ds[|ds| - 1] as int - '0' as int)
  }

  function Pow10(e: int): (r: real)
    ensures r > 0.0
    decreases if e < 0 then -e else e
  {
    if e == 0 then 1.0
    else if e > 0 then 10.0 * Pow10(e - 1)
    else Pow10(e + 1) / 10.0
  }

  /** The index of the first exponent indicator `e` or `E`, or `|s|`. */
  function ExponentMarker(s: string): (k: nat)
    ensures k <= |s|
    ensures forall i :: 0 <= i < k ==> s[i] != 'e' && s[i] != 'E'
    ensures k < |s| ==> s[k] == 'e' || s[k] == 'E'
  {
    if s == [] then 0
    else if s[0] == 'e' || s[0] == 'E' then 0
    else 1 + ExponentMarker(s[1..])
  }

  /** A finite Decimal as the library holds it: an integer coefficient
      scaled by a power of ten. */
  datatype Scaled = Scaled(coefficient: nat, exponent: int)

  /** The number a scaled coefficient denotes. */
  function ScaledValue(x: Scaled): (v: real)
    ensures v >= 0.0
  {
    x.coefficient as real * Pow10(x.exponent)
  }

  /** The exponent of the leading digit (the "adjusted exponent"). */
  function Adjusted(x: Scaled): (a: int) {
    x.exponent + DigitCount(x.coefficient) - 1
  }

  /** The limits of libmpdec on a 64-bit platform (MPD_MAX_PREC,
      MPD_MAX_EMAX, MPD_MIN_EMIN). `Decimal(text)` converts exactly under a
      context with these limits, and signals InvalidOperation whenever that
      context would have to round, overflow or clamp. */
  const MaxPrec: int := 999999999999999999
  const MaxEmax: int := 999999999999999999
  const MinEmin: int := -999999999999999999
  /** The least exponent of a subnormal value at precision MaxPrec. */
  const MinEtiny: int := MinEmin - (MaxPrec - 1)

  /** A coefficient and exponent the conversion keeps exactly: at most
      MaxPrec digits, no overflow past MaxEmax, no exponent below
      MinEtiny. */
  predicate Representable(x: Scaled) {
    && DigitCount(x.coefficient) <= MaxPrec
    && Adjusted(x) <= MaxEmax
    && x.exponent >= MinEtiny
  }

  /** `digits '.' [digits] | ['.'] digits`: the coefficient of a finite
      number, scaled by the number of fraction digits. */
  function ParseCoefficient(m: string): (r: Option<Scaled>) {
    var dot := Find(m, ".");
    var intPart := if dot < 0 then m else m[..dot];
    var fracPart := if dot < 0 then "" else m[dot + 1..];
    if AllDigits(intPart) && AllDigits(fracPart) && |intPart| + |fracPart| > 0 then
      Some(Scaled(DigitsValue(intPart + fracPart), -|fracPart|))
    else None
  }

  /** `[sign] digits`: the exponent after the indicator. */
  function ParseExponent(x: string): (r: Option<int>) {
    var negative := |x| > 0 && x[0] == '-';
    var digits := if |x| > 0 && (x[0] == '+' || x[0] == '-') then x[1..] else x;
    if |digits| > 0 && AllDigits(digits) then
      var e: int := if negative then -(DigitsValue(digits) as int) else DigitsValue(digits);
      Some(e)
    else None
  }

  /** `decimal-part [exponent-part]`, without the sign: the coefficient
      and exponent that the text spells. */
  function ParseScaled(body: string): (r: Option<Scaled>) {
    var k := ExponentMarker(body);
    var coefficient := ParseCoefficient(body[..k]);
    var exponent := if k < |body| then ParseExponent(body[k + 1..]) else Some(0);
    if coefficient.Some? && exponent.Some? then
      Some(Scaled(coefficient.value.coefficient, coefficient.value.exponent + exponent.value))
    else None
  }

  /** A finite number: well-formed text whose coefficient and exponent are
      representable. */
  function ParseFinite(body: string): (r: Option<real>) {
    match ParseScaled(body)
    case Some(x) => if Representable(x) then Some(ScaledValue(x)) else None
    case None => None
  }

  /** `'Inf' | 'Infinity'`, in any case. */
  predicate IsInfinitySpelling(body: string) {
    var lower := LowerAscii(body);
    lower == "inf" || lower == "infinity"
  }

  /** `'NaN' [digits] | 'sNaN' [digits]`, in any case. */
  predicate IsNaNSpelling(body: string) {
    var lower := LowerAscii(body);
    || (StartsWith(lower, "nan") && AllDigits(lower[3..]))
    || (StartsWith(lower, "snan") && AllDigits(lower[4..]))
  }

  /** `Decimal(text)`: surrounding whitespace is stripped and every
      underscore dropped, then the text must be a numeric string (a sign,
      then a finite number, an infinity or a NaN); `None` stands for the
      `decimal.InvalidOperation` raised on anything else, and on a finite
      number that is not `Representable`. */
  function ParseDecimal(text: string): (r: Option<Decimal>)
    ensures Strip(text) == [] ==> r.None?
  {
    ParseNumericString(RemoveAll(Strip(text), "_"))
  }

  /** Whitespace around a numeric string does not change what it denotes. */
  lemma ParseDecimalIgnoresPadding(text: string)
    ensures ParseDecimal(Strip(text)) == ParseDecimal(text)
  {
    StripIdempotent(text);
  }

  /** `[sign] numeric-value | [sign] nan`. */
  function ParseNumericString(t: string): (r: Option<Decimal>) {
    var negative := |t| > 0 && t[0] == '-';
    var body := if |t| > 0 && (t[0] == '+' || t[0] == '-') then t[1..] else t;
    ParseUnsigned(negative, body)
  }

  function ParseUnsigned(negative: bool, body: string): (r: Option<Decimal>) {
    if IsInfinitySpelling(body) then Some(Infinity(negative))
    else if IsNaNSpelling(body) then Some(NaN)
    else
      match ParseFinite(body)
      case Some(v) => Some(Finite(if negative then -v else v))
      case None => None
  }

  /** `str(n)` for a non-negative `int`: its decimal digits, no leading
      zero. */
  function NatToString(n: nat): (s: string)
    ensures |s| > 0 && AllDigits(s)
    ensures DigitsValue(s) == n
    ensures |s| > 1 ==> s[0] != '0'
  {
    if n < 10 then [('0' as int + n) as char]
    else
      var s := NatToString(n / 10) + [('0' as int + n % 10) as char];
      assert s[..|s| - 1] == NatToString(n / 10);
      s
  }

  /** The decimal spelling of an `int`: a minus sign for a negative
      number, then the digits of its magnitude. */
  function IntToString(n: int): (s: string)
    ensures |s| > 0
    ensures n >= 0 ==> s == NatToString(n)
    ensures n < 0 ==> s[0] == '-' && s[1..] == NatToString(-n)
  {
    if n < 0 then "-" + NatToString(-n) else NatToString(n)
  }

  /** `sys.get_int_max_str_digits()` by default (CPython 3.11, and 3.10.7
      onwards): `str` refuses an `int` with more decimal digits. */
  const IntMaxStrDigits: nat := 4300
  const IntMaxStrDigitsMessage :=
    "Exceeds the limit (4300 digits) for integer string conversion; use sys.set_int_max_str_digits() to increase the limit"

  /** The number of decimal digits of `n`, its sign not counted. */
  function DigitCount(n: int): (k: nat) {
    |NatToString(if n < 0 then -n else n)|
  }

  /** `str(n)` for an `int`: its decimal spelling, or the ValueError raised
      when `n` has more than IntMaxStrDigits digits. */
  function StrOfInt(n: int): (r: Result<string>)
    ensures r.Ok? <==> DigitCount(n) <= IntMaxStrDigits
    ensures r.Ok? ==> r.value == IntToString(n) && ParseDecimal(r.value) == Some(Finite(n as real))
    ensures r.Err? ==> r.error == ValueError(IntMaxStrDigitsMessage)
  {
    if DigitCount(n) > IntMaxStrDigits then Err(ValueError(IntMaxStrDigitsMessage))
    else
      ParseIntToString(n);
      Ok(IntToString(n))
  }

  lemma ExponentMarkerOfDigits(ds: string)
    requires AllDigits(ds)
    ensures ExponentMarker(ds) == |ds|
  {
  }

  lemma NoPointInDigits(ds: string)
    requires AllDigits(ds)
    ensures Find(ds, ".") < 0
  {
    forall j | 0 <= j && j + 1 <= |ds| ensures !OccursAt(ds, ".", j) {
      assert ds[j..j + 1][0] == ds[j];
    }
  }

  lemma CoefficientOfDigits(ds: string)
    requires |ds| > 0 && AllDigits(ds)
    ensures ParseCoefficient(ds) == Some(Scaled(DigitsValue(ds), 0))
  {
    NoPointInDigits(ds);
    CoefficientWithoutPoint(ds);
    var c := ParseCoefficient(ds).value;
    assert c == Scaled(c.coefficient, c.exponent);
  }

  lemma CoefficientWithoutPoint(ds: string)
    requires |ds| > 0 && AllDigits(ds) && Find(ds, ".") < 0
    ensures ParseCoefficient(ds).Some?
    ensures ParseCoefficient(ds).Some? ==> ParseCoefficient(ds).value.coefficient == DigitsValue(ds)
    ensures ParseCoefficient(ds).Some? ==> ParseCoefficient(ds).value.exponent == 0
  {
    assert ds + "" == ds;
  }

  /** A digit string without an exponent indicator or a point is read as
      the number it denotes, unless that number has more than MaxPrec
      digits. */
  lemma ParseDigits(ds: string)
    requires |ds| > 0 && AllDigits(ds)
    ensures ParseFinite(ds) ==
      if DigitCount(DigitsValue(ds)) <= MaxPrec then Some(DigitsValue(ds) as real) else None
  {
    ExponentMarkerOfDigits(ds);
    assert ds[..|ds|] == ds;
    CoefficientOfDigits(ds);
    assert ParseScaled(ds) == Some(Scaled(DigitsValue(ds), 0));
  }

  /** The sign and the body that ParseDecimal splits a digit string,
      possibly preceded by a minus sign, into. */
  predicate IsSignedDigits(s: string) {
    |s| > 0 && IsDigit(s[|s| - 1]) && forall i :: 0 <= i < |s| ==> IsDigit(s[i]) || s[i] == '-'
  }

  /** Stripping whitespace and dropping underscores leave a digit string,
      possibly preceded by a minus sign, as it is. */
  lemma SignedDigitsClean(s: string)
    requires IsSignedDigits(s)
    ensures RemoveAll(Strip(s), "_") == s
    ensures ParseDecimal(s) == ParseNumericString(s)
  {
    CleanText(s);
  }

  /** Text with no whitespace at its ends and no underscore reaches the
      numeric-string grammar unchanged. */
  lemma CleanText(s: string)
    requires |s| > 0 && !IsSpace(s[0]) && !IsSpace(s[|s| - 1])
    requires forall i :: 0 <= i < |s| ==> s[i] != '_'
    ensures RemoveAll(Strip(s), "_") == s
    ensures ParseDecimal(s) == ParseNumericString(s)
  {
    TrimOfTrimmed(s, IsSpace);
    assert forall i :: 0 <= i < |s| ==> s[i] != "_"[0];
    RemoveAllAbsent(s, "_", 0);
  }

  /** A numeric string that starts with neither sign is unsigned. */
  lemma UnsignedNumericString(t: string)
    requires |t| > 0 && t[0] != '+' && t[0] != '-'
    ensures ParseNumericString(t) == ParseUnsigned(false, t)
  {
  }

  lemma UnsignedFinite(negative: bool, body: string)
    requires !IsInfinitySpelling(body) && !IsNaNSpelling(body)
    ensures ParseFinite(body).None? ==> ParseUnsigned(negative, body).None?
    ensures ParseFinite(body).Some? ==>
      var v := ParseFinite(body).value;
      ParseUnsigned(negative, body) == Some(Finite(if negative then -v else v))
  {
  }

  /** The digits of `str(m)` are read back as `m`, unless there are more
      than MaxPrec of them. */
  lemma ParseNatString(m: nat)
    ensures ParseFinite(NatToString(m)) ==
      if |NatToString(m)| <= MaxPrec then Some(m as real) else None
    ensures !IsInfinitySpelling(NatToString(m)) && !IsNaNSpelling(NatToString(m))
  {
    ParseDigits(NatToString(m));
    DigitsNotSpecial(NatToString(m));
  }

  /** A string that starts with a digit spells neither an infinity nor a
      NaN. */
  lemma DigitsNotSpecial(ds: string)
    requires |ds| > 0 && IsDigit(ds[0])
    ensures !IsInfinitySpelling(ds) && !IsNaNSpelling(ds)
  {
    var lower := LowerAscii(ds);
    assert IsDigit(lower[0]);
    assert lower != "inf" && lower != "infinity" by {
      assert "inf"[0] == 'i' && "infinity"[0] == 'i';
    }
    assert !StartsWith(lower, "nan") by { assert "nan"[0] == 'n'; }
    assert !StartsWith(lower, "snan") by { assert "snan"[0] == 's'; }
  }

  lemma NumericSignedDigits(negative: bool, ds: string)
    requires |ds| > 0 && AllDigits(ds)
    ensures ParseNumericString(if negative then "-" + ds else ds) == ParseUnsigned(negative, ds)
  {
    var t := if negative then "-" + ds else ds;
    assert IsDigit(ds[0]);
    assert negative ==> t[1..] == ds;
  }

  lemma NumericSignedNat(negative: bool, m: nat, s: string)
    requires s == if negative then "-" + NatToString(m) else NatToString(m)
    ensures ParseNumericString(s)
         == if |NatToString(m)| <= MaxPrec then Some(Finite(if negative then -(m as real) else m as real)) else None
  {
    var ds := NatToString(m);
    NumericSignedDigits(negative, ds);
    ParseNatString(m);
    UnsignedFinite(negative, ds);
  }

  /** The spelling of a signed natural number is left alone by stripping
      and by the removal of underscores. */
  lemma SignedNatClean(negative: bool, m: nat, s: string)
    requires s == if negative then "-" + NatToString(m) else NatToString(m)
    ensures ParseDecimal(s) == ParseNumericString(s)
  {
    assert IsSignedDigits(s);
    SignedDigitsClean(s);
  }

  lemma ParseSignedNat(negative: bool, m: nat, s: string, v: int)
    requires s == if negative then "-" + NatToString(m) else NatToString(m)
    requires v == if negative then -(m as int) else m as int
    ensures |NatToString(m)| <= MaxPrec ==> ParseDecimal(s) == Some(Finite(v as real))
    ensures |NatToString(m)| > MaxPrec ==> ParseDecimal(s) == None
  {
    SignedNatClean(negative, m, s);
    NumericSignedNat(negative, m, s);
    SignedCast(negative, m, v);
  }

  lemma SignedCast(negative: bool, m: nat, v: int)
    requires v == if negative then -(m as int) else m as int
    ensures (if negative then -(m as real) else m as real) == v as real
  {
  }

  /** `Decimal` reads the decimal spelling of `n` as exactly `n`; only a
      spelling of more than MaxPrec digits is refused, with
      InvalidOperation. */
  lemma ParseIntToString(n: int)
    ensures ParseDecimal(IntToString(n)) ==
      if DigitCount(n) <= MaxPrec then Some(Finite(n as real)) else None
  {
    if n >= 0 {
      ParseSignedNat(false, n, IntToString(n), n);
    } else {
      NegativeSpelling(n);
      ParseSignedNat(true, -n, IntToString(n), n);
    }
  }

  lemma NegativeSpelling(n: int)
    requires n < 0
    ensures IntToString(n) == "-" + NatToString(-n)
    ensures DigitCount(n) == |NatToString(-n)|
  {
  }

  /** A natural number has at most one digit more than its own value. */
  lemma {:induction false} DigitCountAtMost(n: nat)
    ensures DigitCount(n) <= n + 1
  {
    if n >= 10 {
      DigitCountAtMost(n / 10);
    }
  }

  /** The exponent of a power of ten. */
  lemma Pow10Step(e: int)
    ensures Pow10(e + 1) == 10.0 * Pow10(e)
  {
  }

  lemma {:induction false} Pow10Monotone(a: int, b: int)
    requires a <= b
    ensures Pow10(a) <= Pow10(b)
    decreases b - a
  {
    if a < b {
      Pow10Monotone(a, b - 1);
      Pow10Step(b - 1);
    }
  }

  /** The exponent after the indicator is read as the int it spells. */
  lemma ParseExponentOfInt(e: int)
    ensures ParseExponent(IntToString(e)) == Some(e)
  {
    var x := IntToString(e);
    if e < 0 {
      assert x[1..] == NatToString(-e);
    } else {
      assert IsDigit(x[0]);
    }
  }

  /** The spelling of an int is made of digits and a minus sign, and ends
      with a digit. */
  lemma IntSpellingChars(e: int)
    ensures var x := IntToString(e);
      && IsDigit(x[|x| - 1])
      && forall i :: 0 <= i < |x| ==> IsDigit(x[i]) || x[i] == '-'
  {
    var x := IntToString(e);
    if e < 0 {
      assert x[|x| - 1] == x[1..][|x| - 2];
      forall i | 1 <= i < |x| ensures IsDigit(x[i]) {
        assert x[i] == x[1..][i - 1];
      }
    }
  }

  /** The text `1e` followed by the spelling of `e` is left alone by
      stripping and by the removal of underscores, and has no sign. */
  lemma PowerOfTenTextClean(e: int)
    ensures var t := "1e" + IntToString(e);
      ParseDecimal(t) == ParseUnsigned(false, t)
  {
    var x := IntToString(e);
    var t := "1e" + x;
    IntSpellingChars(e);
    assert t[|t| - 1] == x[|x| - 1];
    forall i | 0 <= i < |t| ensures t[i] != '_' {
      if i >= 2 { assert t[i] == x[i - 2]; }
    }
    CleanText(t);
    UnsignedNumericString(t);
  }

  /** The text `1e` followed by the spelling of `e` has coefficient 1 and
      exponent e. */
  lemma PowerOfTenTextScaled(e: int)
    ensures ParseScaled("1e" + IntToString(e)) == Some(Scaled(1, e))
  {
    var x := IntToString(e);
    var t := "1e" + x;
    assert t[2..] == x && t[..1] == "1" && t[1..][0] == 'e';
    assert ExponentMarker(t) == 1;
    CoefficientOfDigits("1");
    ParseExponentOfInt(e);
  }

  lemma PowerOfTenTextFinite(e: int)
    ensures ParseFinite("1e" + IntToString(e)) ==
      if MinEtiny <= e <= MaxEmax then Some(Pow10(e)) else None
  {
    PowerOfTenTextScaled(e);
    assert DigitCount(1) == 1;
    assert Representable(Scaled(1, e)) <==> MinEtiny <= e <= MaxEmax;
    assert ScaledValue(Scaled(1, e)) == Pow10(e);
  }

  /** `Decimal("1e" + str(e))` is ten to the power e exactly when e lies in
      the exponent range of the library; beyond it, the text is refused
      with InvalidOperation although it is well-formed. */
  lemma PowerOfTenText(e: int)
    ensures ParseDecimal("1e" + IntToString(e)) ==
      if MinEtiny <= e <= MaxEmax then Some(Finite(Pow10(e))) else None
  {
    var t := "1e" + IntToString(e);
    PowerOfTenTextClean(e);
    PowerOfTenTextFinite(e);
    DigitsNotSpecial(t);
    UnsignedFinite(false, t);
  }

  /** A body that starts with neither a digit nor a decimal point spells no
      finite number. */
  lemma NoLeadingDigit(body: string)
    requires |body| > 0 && !IsDigit(body[0]) && body[0] != '.'
    ensures ParseFinite(body) == None
  {
    var k := ExponentMarker(body);
    var m := body[..k];
    if k > 0 {
      assert m[0] == body[0];
      var dot := Find(m, ".");
      if dot >= 0 {
        assert dot > 0 && m[..dot][0] == m[0];
      }
    }
    assert ParseCoefficient(m) == None;
  }

  /** `str(b)` for a bool: `True` or `False`. */
  function StrOfBool(b: bool): (t: string)
    ensures |t| > 0 && t[0] == (if b then 'T' else 'F')
    ensures forall i :: 0 <= i < |t| ==> 'A' <= t[i] <= 'Z' || 'a' <= t[i] <= 'z'
  {
    if b then "True" else "False"
  }

  /** Neither `str(True)` nor `str(False)` is a numeric string. */
  lemma StrOfBoolUnreadable(b: bool)
    ensures ParseDecimal(StrOfBool(b)) == None
  {
    LetterLedUnreadable(StrOfBool(b));
  }

  /** Text of ASCII letters that starts with a letter other than those of
      `inf`, `nan` and `snan` is not a numeric string. */
  lemma LetterLedUnreadable(t: string)
    requires |t| > 0 && t[0] !in "iInNsS"
    requires forall i :: 0 <= i < |t| ==> 'A' <= t[i] <= 'Z' || 'a' <= t[i] <= 'z'
    ensures ParseDecimal(t) == None
  {
    assert !IsSpace(t[0]) && !IsSpace(t[|t| - 1]);
    CleanText(t);
    UnsignedNumericString(t);
    LetterLedNotSpecial(t);
    NoLeadingDigit(t);
    UnsignedFinite(false, t);
  }

  /** A letter other than those of `inf`, `nan` and `snan` starts no
      infinity and no NaN. */
  lemma LetterLedNotSpecial(t: string)
    requires |t| > 0 && ('A' <= t[0] <= 'Z' || 'a' <= t[0] <= 'z')
    requires t[0] !in "iInNsS"
    ensures !IsInfinitySpelling(t) && !IsNaNSpelling(t)
  {
    var lower := LowerAscii(t);
    assert lower[0] != 'i' && lower[0] != 'n' && lower[0] != 's';
    assert lower != "inf" && lower != "infinity" by {
      assert "inf"[0] == 'i' && "infinity"[0] == 'i';
    }
    NotNaNLed(lower);
  }

  /** Text that starts with neither `n` nor `s` starts no NaN spelling. */
  lemma NotNaNLed(lower: string)
    requires |lower| > 0 && lower[0] != 'n' && lower[0] != 's'
    ensures !StartsWith(lower, "nan") && !StartsWith(lower, "snan")
  {
    if |lower| >= 3 { assert lower[..3][0] == lower[0]; }
    if |lower| >= 4 { assert lower[..4][0] == lower[0]; }
  }
}
