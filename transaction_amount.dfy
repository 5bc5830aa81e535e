/** app/domain/value_objects/transaction_amount.py: a monetary amount,
    held as an exact decimal. */
module TransactionAmounts {
  import opened Errors
  import opened DecimalText

  const MaxAmount: real := 999999999.99
  const NotPositiveMessage := "Transaction amount must be greater than zero"
  const TooLargeMessage := "Transaction amount exceeds maximum allowed"

  /** The frozen dataclass over a finite Decimal. */
  datatype TransactionAmount = TransactionAmount(value: real)

  /** The argument of `create`. A float is represented by the number its
      `repr` spells, which is what `Decimal(str(f))` reads. A bool passes
      the `isinstance(value, int)` test, since `bool` subclasses `int`. */
  datatype AmountInput =
    | FromDecimal(d: real)
    | FromInt(n: int)
    | FromBool(b: bool)
    | FromFloat(f: real)
    | FromStr(s: string)

  /** `Decimal(text)`, with the InvalidOperation it raises on text that is
      not a numeric string or spells a number outside the library's
      exponent and precision limits. */
  function DecimalOfText(text: string): (r: Result<Decimal>)
    ensures r.Ok? <==> ParseDecimal(text).Some?
    ensures r.Ok? ==> ParseDecimal(text) == Some(r.value)
    ensures r.Err? ==> r.error == DecimalInvalidOperation
  {
    match ParseDecimal(text)
    case Some(d) => Ok(d)
    case None => Err(DecimalInvalidOperation)
  }

  /** Lines 13-16: `Decimal(str(value))` for an int, a bool, a float or a
      str, and the value itself for a Decimal. `str` of an int over the
      digit limit raises ValueError; `str` of a bool is `True` or `False`,
      which `Decimal` refuses; a float's `str` is read back as the number
      it denotes. */
  function ToDecimal(input: AmountInput): (r: Result<Decimal>)
    ensures input.FromDecimal? ==> r == Ok(Finite(input.d))
    ensures input.FromFloat? ==> r == Ok(Finite(input.f))
    ensures input.FromInt? ==> (r.Ok? <==> DigitCount(input.n) <= IntMaxStrDigits)
    ensures input.FromInt? && r.Ok? ==> r.value == Finite(input.n as real)
    ensures input.FromInt? && r.Err? ==> r.error == ValueError(IntMaxStrDigitsMessage)
    ensures input.FromBool? ==> r == Err(DecimalInvalidOperation)
    ensures input.FromStr? ==> r == DecimalOfText(input.s)
  {
    match input
    case FromDecimal(d) => Ok(Finite(d))
    case FromInt(n) =>
      (match StrOfInt(n)
       case Ok(text) => DecimalOfText(text)
       case Err(e) => Err(e))
    case FromBool(b) =>
      StrOfBoolUnreadable(b);
      DecimalOfText(StrOfBool(b))
    case FromFloat(f) => Ok(Finite(f))
    case FromStr(text) => DecimalOfText(text)
  }

  /** Direct construction, `TransactionAmount(value)`: `__post_init__`
      enforces positivity and nothing else. */
  function New(value: real): (r: Result<TransactionAmount>)
    ensures r.Ok? <==> value > 0.0
    ensures r.Ok? ==> r.value.value == value
    ensures r.Err? ==> r.error == InvalidTransactionAmount(NotPositiveMessage)
  {
    if value <= 0.0 then Err(InvalidTransactionAmount(NotPositiveMessage))
    else Ok(TransactionAmount(value))
  }

  /** `TransactionAmount.create`: convert, reject a value that is not
      positive, reject a value over MaxAmount, then construct. An
      ordering comparison with a NaN raises InvalidOperation; an infinity
      fails whichever bound it lies beyond. */
  function Create(input: AmountInput): (r: Result<TransactionAmount>)
    ensures var d := ToDecimal(input);
      r.Ok? <==> d.Ok? && d.value.Finite? && 0.0 < d.value.v <= MaxAmount
    ensures r.Ok? ==> ToDecimal(input) == Ok(Finite(r.value.value))
    ensures r.Ok? ==> 0.0 < r.value.value <= MaxAmount
    ensures var d := ToDecimal(input);
      d.Err? ==> r == Err(d.error)
    ensures var d := ToDecimal(input);
      d == Ok(NaN) ==> r == Err(DecimalInvalidOperation)
    ensures var d := ToDecimal(input);
      d.Ok? && d.value.Finite? && d.value.v <= 0.0 ==> r == Err(InvalidTransactionAmount(NotPositiveMessage))
    ensures var d := ToDecimal(input);
      d.Ok? && d.value.Finite? && d.value.v > MaxAmount ==> r == Err(InvalidTransactionAmount(TooLargeMessage))
    ensures ToDecimal(input) == Ok(Infinity(true)) ==> r == Err(InvalidTransactionAmount(NotPositiveMessage))
    ensures ToDecimal(input) == Ok(Infinity(false)) ==> r == Err(InvalidTransactionAmount(TooLargeMessage))
  {
    match ToDecimal(input)
    case Err(e) => Err(e)
    case Ok(NaN) => Err(DecimalInvalidOperation)
    case Ok(Infinity(negative)) =>
      if negative then Err(InvalidTransactionAmount(NotPositiveMessage))
      else Err(InvalidTransactionAmount(TooLargeMessage))
    case Ok(Finite(v)) =>
      if v <= 0.0 then Err(InvalidTransactionAmount(NotPositiveMessage))
      else if v > MaxAmount then Err(InvalidTransactionAmount(TooLargeMessage))
      else New(v)
  }

  /** Every failure of `create` is one of the two amount errors, the
      InvalidOperation of `Decimal`, or the ValueError of `str(int)`; only
      the two amount errors are domain exceptions. */
  lemma CreateErrors(input: AmountInput)
    ensures Create(input).Err? ==> Create(input).error in {
      InvalidTransactionAmount(NotPositiveMessage), InvalidTransactionAmount(TooLargeMessage),
      DecimalInvalidOperation, ValueError(IntMaxStrDigitsMessage) }
    ensures Create(input).Err? ==>
      (Create(input).error.IsDomainError() <==> Create(input).error.InvalidTransactionAmount?)
  {
    var d := ToDecimal(input);
    if d.Err? {
      assert d.error == DecimalInvalidOperation || d.error == ValueError(IntMaxStrDigitsMessage);
    }
    var r := Create(input);
    if r.Err? {
      CreateErrorKinds(r.error);
    }
  }

  /** Of the errors `create` raises, only the amount errors are domain
      exceptions. */
  lemma CreateErrorKinds(e: Error)
    requires e in {
      InvalidTransactionAmount(NotPositiveMessage), InvalidTransactionAmount(TooLargeMessage),
      DecimalInvalidOperation, ValueError(IntMaxStrDigitsMessage) }
    ensures e.IsDomainError() <==> e.InvalidTransactionAmount?
  {
  }

  /** An exact decimal is accepted iff 0 < v <= MaxAmount, and then kept
      unchanged; otherwise the error names the bound it violates. */
  lemma CreateDecimal(v: real)
    ensures 0.0 < v <= MaxAmount ==> Create(FromDecimal(v)) == Ok(TransactionAmount(v))
    ensures v <= 0.0 ==> Create(FromDecimal(v)) == Err(InvalidTransactionAmount(NotPositiveMessage))
    ensures v > MaxAmount ==> Create(FromDecimal(v)) == Err(InvalidTransactionAmount(TooLargeMessage))
  {
  }

  /** An int goes through its decimal text and comes back exact: creating
      from `n` is creating from the decimal `n`, unless `str(n)` refuses
      it for having too many digits. */
  lemma CreateInt(n: int)
    ensures DigitCount(n) <= IntMaxStrDigits ==> Create(FromInt(n)) == Create(FromDecimal(n as real))
    ensures DigitCount(n) > IntMaxStrDigits ==> Create(FromInt(n)) == Err(ValueError(IntMaxStrDigitsMessage))
  {
  }

  /** A bool is read through `str`, so `True` is not 1 and `False` is not
      0: both raise InvalidOperation before any amount check. */
  lemma CreateBool(b: bool)
    ensures Create(FromBool(b)) == Err(DecimalInvalidOperation)
  {
  }

  /** A float is read through its `repr`, so it is checked as the number
      that `repr` spells. */
  lemma CreateFloat(f: real)
    ensures Create(FromFloat(f)) == Create(FromDecimal(f))
  {
  }

  /** Text is checked as the decimal it spells: negative or zero text gets
      the "greater than zero" error, not InvalidOperation. */
  lemma CreateText(text: string, v: real)
    requires ParseDecimal(text) == Some(Finite(v))
    ensures Create(FromStr(text)) == Create(FromDecimal(v))
  {
  }

  /** Text that `Decimal` refuses makes `create` fail with that
      InvalidOperation, before any bound is checked. */
  lemma CreateUnreadableText(text: string)
    requires ParseDecimal(text).None?
    ensures Create(FromStr(text)) == Err(DecimalInvalidOperation)
  {
  }

  /** "-5" is rejected for its value. */
  lemma NegativeTextRejected()
    ensures Create(FromStr("-5")) == Err(InvalidTransactionAmount(NotPositiveMessage))
  {
    assert IntToString(-5) == "-5";
    ParseIntToString(-5);
  }

  /** Creating again from a created amount's value gives the same
      amount. */
  lemma CreateIdempotent(input: AmountInput)
    requires Create(input).Ok?
    ensures Create(FromDecimal(Create(input).value.value)) == Create(input)
  {
  }

  /** The transaction repository stores the amount as text and rebuilds it
      with `create` on that text. An amount whose value is the int `n`,
      stored as the spelling of `n` (what `str` gives for a Decimal made
      from an int), is rebuilt as the same amount. */
  lemma IntegralAmountReloaded(a: TransactionAmount, n: int)
    requires Create(FromDecimal(a.value)) == Ok(a) && a.value == n as real
    ensures Create(FromStr(IntToString(n))) == Ok(a)
  {
    DigitCountAtMost(n);
    ParseIntToString(n);
    CreateText(IntToString(n), n as real);
  }

  /** Well-formed text can still fail to convert: `1e<e>` is ten to the
      power e, too large from e = 9 on, and refused with InvalidOperation
      once e leaves the library's exponent range. */
  lemma CreatePowerOfTen(e: int)
    ensures Create(FromStr("1e" + IntToString(e))) ==
      if e < MinEtiny || e > MaxEmax then Err(DecimalInvalidOperation)
      else if e >= 9 then Err(InvalidTransactionAmount(TooLargeMessage))
      else Ok(TransactionAmount(Pow10(e)))
  {
    PowerOfTenText(e);
    CreatePowerOfTenFrom("1e" + IntToString(e), e);
  }

  lemma CreatePowerOfTenFrom(text: string, e: int)
    requires ParseDecimal(text) == if MinEtiny <= e <= MaxEmax then Some(Finite(Pow10(e))) else None
    ensures Create(FromStr(text)) ==
      if e < MinEtiny || e > MaxEmax then Err(DecimalInvalidOperation)
      else if e >= 9 then Err(InvalidTransactionAmount(TooLargeMessage))
      else Ok(TransactionAmount(Pow10(e)))
  {
    if MinEtiny <= e <= MaxEmax {
      CreateText(text, Pow10(e));
      Pow10AroundMaxAmount(e);
      CreateDecimal(Pow10(e));
    } else {
      CreateUnreadableText(text);
    }
  }

  /** Ten to the power 9 is the least power of ten above MaxAmount. */
  lemma Pow10AroundMaxAmount(e: int)
    ensures e >= 9 ==> Pow10(e) > MaxAmount
    ensures e <= 8 ==> Pow10(e) <= MaxAmount
  {
    if e >= 9 {
      Pow10Monotone(9, e);
      assert Pow10(9) == 1000000000.0;
    } else {
      Pow10Monotone(e, 8);
      assert Pow10(8) == 100000000.0;
    }
  }

  /** Direct construction does not enforce the upper bound. */
  lemma NewAcceptsOverMaximum()
    ensures New(MaxAmount + 1.0).Ok?
    ensures Create(FromDecimal(MaxAmount + 1.0)).Err?
  {
  }
}
