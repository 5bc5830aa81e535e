# Fraud-risk domain rules, modelled in Dafny

This project models the domain core of a fraud-detection service. It also
models two pure helpers from the service's adapters. The core consists of:

- the value objects `TransactionAmount`, `UserId`, `MerchantId` and
  `TransactionId`, each validating one primitive field;
- the `Transaction` entity and its rule layer `assess_fraud_risk`, which
  raises an opaque model probability for large and night-time
  transactions;
- the `FraudDecision` entity with its `Decision` enum and `create`, and
  `FraudAssessmentService.determine_decision`, which map a risk score to
  APPROVE, REVIEW or BLOCK at the thresholds 0.3 and 0.7;
- the feature vector `FraudScoringService._extract_features` hands to the
  model;
- the rewriting of the connection URL in `Database.__init__`.

Every fallible operation returns a `Result`. Its `Error` datatype
(`errors.dfy`) has one case per domain exception. It also has `ValueError`
and the `decimal.InvalidOperation` signal: the code raises those as well.

Python's library behaviour is written out rather than assumed:

- `text.dfy` gives `str.isspace`, `strip`, `find`, `in`, the deleting
  `replace(p, "")` and the single `replace(a, b, 1)`.
- `decimal_text.dfy` gives the numeric-string grammar `Decimal(str)`
  accepts. This covers underscores, sign, exponent, Infinity and NaN, and
  the limits of the 64-bit decimal library: a finite number must have at
  most 999999999999999999 significant digits, an adjusted exponent of at
  most 999999999999999999 and an exponent of at least
  -1999999999999999997. It also gives `str(int)` with its default limit
  of 4300 digits.
- `uuid.dfy` gives the `UUID(text)` reader and the canonical `str(uuid)`.

Each operation is proved against its partner: the value objects against
re-creation from their own output, `str(id)` against `UUID(text)`, the
step-by-step rule method against a closed form, `create` against
`determine_decision`, and the URL rewrite against a second rewrite.

Failures of `TransactionAmount.create` that are not an
`InvalidTransactionAmountError` (`TransactionAmounts.Create`):

- Non-numeric amount text, or text that spells a number beyond the
  library's limits (`1e1000000000000000000`): `Decimal` raises
  `decimal.InvalidOperation`.
- A bool: it passes the `int` test, and `Decimal` refuses `str(True)` and
  `str(False)` with `InvalidOperation`.
- A NaN amount: the first comparison with it raises `InvalidOperation`.
- An int of more than 4300 digits: `str` raises `ValueError` before any
  check.

An infinite amount is rejected by whichever bound it violates.

## Model

| member | source | states |
|---|---|---|
| TransactionAmounts.New | app/domain/value_objects/transaction_amount.py:23-25 | direct construction succeeds iff the value is positive, stores it unchanged, and otherwise fails with the "greater than zero" error |
| TransactionAmounts.DecimalOfText | app/domain/value_objects/transaction_amount.py:14 | `Decimal(text)` succeeds iff the text is a numeric string whose number is within the library's digit and exponent limits, with the decimal it spells, and otherwise raises InvalidOperation |
| TransactionAmounts.ToDecimal | app/domain/value_objects/transaction_amount.py:13-16 | a Decimal is taken as it is and a float as the number it spells; an int n becomes exactly n, or the ValueError of `str` when n has more than 4300 digits; a bool raises InvalidOperation; text goes through `Decimal(text)` |
| TransactionAmounts.Create | app/domain/value_objects/transaction_amount.py:11-21 | succeeds iff the converted input is a finite decimal v with 0 < v ≤ 999999999.99, and stores v; a conversion error is passed on unchanged; a NaN raises InvalidOperation; a finite or infinite v ≤ 0 gets "greater than zero" and one above the bound gets "exceeds maximum", whatever the input's type |
| TransactionAmounts.CreateErrors | app/domain/value_objects/transaction_amount.py:11-21 | every failure is one of the two amount errors, InvalidOperation, or the ValueError of `str(int)`, and it is a domain exception iff it is an amount error |
| TransactionAmounts.CreateDecimal | app/domain/value_objects/transaction_amount.py:17-21 | an exact decimal in (0, 999999999.99] is stored unchanged, the bound itself included; v ≤ 0 gets the "greater than zero" error; v above the bound gets the "exceeds maximum" error |
| TransactionAmounts.CreateInt | app/domain/value_objects/transaction_amount.py:13-14 | an int n of at most 4300 digits, converted through `Decimal(str(n))`, behaves exactly as the decimal n; a longer one fails with the ValueError of `str` |
| TransactionAmounts.CreateBool | app/domain/value_objects/transaction_amount.py:13-14 | `create(True)` and `create(False)` raise InvalidOperation: neither becomes 1 or 0 |
| TransactionAmounts.CreateFloat | app/domain/value_objects/transaction_amount.py:13-14 | a float behaves as the decimal its `repr` spells |
| TransactionAmounts.CreateText | app/domain/value_objects/transaction_amount.py:13-14 | text that spells a finite decimal v behaves exactly as v, so negative or zero text gets "greater than zero" |
| TransactionAmounts.CreateUnreadableText | app/domain/value_objects/transaction_amount.py:14 | text that `Decimal` refuses makes `create` raise InvalidOperation, before any amount check |
| TransactionAmounts.CreatePowerOfTen | app/domain/value_objects/transaction_amount.py:13-21 | `create("1e" + str(e))` raises InvalidOperation when e is beyond the library's exponent limits, gets "exceeds maximum" for e ≥ 9 within them, and otherwise stores 10^e |
| TransactionAmounts.NegativeTextRejected | app/domain/value_objects/transaction_amount.py:14-18 | "-5" gets the "greater than zero" error, not InvalidOperation |
| TransactionAmounts.CreateIdempotent | app/domain/value_objects/transaction_amount.py:7-21 | `create(a.value) == a` for every created amount a |
| TransactionAmounts.IntegralAmountReloaded | app/adapters/outbound/persistence/repositories/transaction_repository.py:27-54 | an amount whose value is an int n, stored as the spelling of n (the text `str` gives for a Decimal made from an int) and rebuilt with `create` on that text, is the same amount |
| TransactionAmounts.NewAcceptsOverMaximum | app/domain/value_objects/transaction_amount.py:19-25 | direct construction accepts an amount above the maximum that `create` rejects |
| DecimalText.ParseDecimal | app/domain/value_objects/transaction_amount.py:14 | `Decimal(text)` of blank text raises InvalidOperation |
| DecimalText.ParseDecimalIgnoresPadding | app/domain/value_objects/transaction_amount.py:14 | whitespace around the text does not change the decimal it spells |
| DecimalText.ParseIntToString | app/domain/value_objects/transaction_amount.py:14 | the decimal spelling of an int n is read by `Decimal` as exactly n iff n has at most 999999999999999999 digits, and is refused with InvalidOperation otherwise |
| DecimalText.PowerOfTenText | app/domain/value_objects/transaction_amount.py:14 | `Decimal("1e" + str(e))` is exactly 10^e iff e lies between the smallest and the largest exponent the library allows, and raises InvalidOperation otherwise |
| DecimalText.NatToString | app/domain/value_objects/transaction_amount.py:14 | the spelling of a natural number is a digit string with no leading zero whose value is n |
| DecimalText.IntToString | app/domain/value_objects/transaction_amount.py:14 | the spelling of an int is that of its magnitude, after a minus sign when it is negative |
| DecimalText.StrOfBoolUnreadable | app/domain/value_objects/transaction_amount.py:14 | `Decimal(str(b))` raises InvalidOperation for both bools |
| DecimalText.StrOfInt | app/domain/value_objects/transaction_amount.py:14 | `str(n)` succeeds iff n has at most 4300 digits, and then gives text that `Decimal` reads as exactly n; otherwise it raises the ValueError of the digit limit |
| UserIds.Create | app/domain/value_objects/user_id.py:11-16 | succeeds iff the stripped input is non-empty and the raw input has at most 100 characters; stores the stripped input, which is non-empty, unpadded and at most 100 long; blank input gets "cannot be empty" and long input gets "exceeds maximum length" |
| UserIds.CreateIdempotent | app/domain/value_objects/user_id.py:6-16 | creating again from a created UserId's value gives the same UserId |
| UserIds.BlankRejectedFirst | app/domain/value_objects/user_id.py:12-15 | whitespace-only input of any length gets the emptiness error, not the length error |
| UserIds.PaddedInputRejected | app/domain/value_objects/user_id.py:14-15 | the length is measured before stripping: one blank plus 100 letters is rejected |
| MerchantIds.Create | app/domain/value_objects/merchant_id.py:11-16 | the same rules as for user ids, with the merchant error and messages |
| MerchantIds.CreateIdempotent | app/domain/value_objects/merchant_id.py:6-16 | creating again from a created MerchantId's value gives the same MerchantId |
| MerchantIds.BlankRejectedFirst | app/domain/value_objects/merchant_id.py:12-15 | whitespace-only input of any length gets the emptiness error |
| MerchantIds.PaddedInputRejected | app/domain/value_objects/merchant_id.py:14-15 | the length limit applies to the unstripped input |
| Identifiers.TrimmedIsStable | app/domain/value_objects/user_id.py:16 | a stripped identifier of length at most 100 passes both checks and strips to itself |
| Text.Strip | app/domain/value_objects/user_id.py:12 | `strip()` is a slice `s[i..j]` of its input with only whitespace before i and after j; it starts and ends with a non-whitespace character, and is empty iff the input is all whitespace |
| Text.IsSpace | app/domain/value_objects/user_id.py:12 | among ASCII characters, `isspace()` holds exactly for space, tab, line feed, vertical tab, form feed, carriage return and the four separators 0x1C to 0x1F |
| Text.Trim | app/domain/value_objects/transaction_id.py:15 | `strip(chars)` is a slice `s[i..j]` of its input with only dropped characters before i and after j; it neither starts nor ends with a dropped character, and is empty iff every character is dropped |
| Text.StripIdempotent | app/domain/value_objects/user_id.py:16 | stripping a stripped string changes nothing |
| Text.StartsWith | app/adapters/outbound/persistence/database.py:12-14 | `s.startswith(pat)` holds iff the pattern occurs at index 0 |
| Text.Find | app/adapters/outbound/persistence/database.py:16 | `find` returns an index where the pattern occurs and no earlier one, or -1 when it occurs nowhere |
| Text.Contains | app/adapters/outbound/persistence/database.py:16-17 | `pat in s` holds iff the pattern occurs at some index |
| Text.ReplaceFirst | app/adapters/outbound/persistence/database.py:13-15 | `replace(a, b, 1)` leaves text without `a` unchanged; otherwise the text before the first `a`, which holds no `a`, is kept, `b` takes the place of that `a`, and the rest follows unchanged |
| Text.RemoveAll | app/domain/value_objects/transaction_amount.py:14 | `replace(p, "")` never lengthens its input |
| Text.RemoveAllAbsent | app/domain/value_objects/transaction_id.py:15 | text lacking one character of the pattern has nothing removed |
| TransactionIds.Create | app/domain/value_objects/transaction_id.py:11-20 | a UUID is wrapped unchanged; text that `UUID()` reads is wrapped as that UUID; other text fails with InvalidTransactionIdError naming the text, never a bare ValueError |
| TransactionIds.ToString | app/domain/value_objects/transaction_id.py:22-23 | `str(id)` is the 36-character text of the wrapped UUID |
| TransactionIds.CreateOfToString | app/domain/value_objects/transaction_id.py:12-23 | creating from `str(id)` gives back id, as the repositories rely on |
| TransactionIds.ToStringInjective | app/domain/value_objects/transaction_id.py:7-9 | two ids have the same text iff they are equal |
| Uuids.ParseUuid | app/domain/value_objects/transaction_id.py:15 | `UUID(text)` succeeds iff the text, with `urn:` and `uuid:` removed, braces stripped from both ends and hyphens removed, is exactly 32 hex digits, and reads those digits |
| Uuids.UuidToString | app/domain/value_objects/transaction_id.py:23 | `str(u)` has 36 characters: the lower-case hex digits of u in groups of 8, 4, 4, 4 and 12, with hyphens at 8, 13, 18 and 23 |
| Uuids.ParseOfToString | app/domain/value_objects/transaction_id.py:15-23 | reading the canonical text of a UUID gives back that UUID |
| Uuids.ParseUrnForm | app/domain/value_objects/transaction_id.py:15 | the `urn:uuid:` spelling of a UUID is read as that UUID |
| Uuids.ParseBracedForm | app/domain/value_objects/transaction_id.py:15 | the braced spelling `{...}` of a UUID is read as that UUID |
| Uuids.ToStringInjective | app/domain/value_objects/transaction_id.py:23 | distinct UUIDs have distinct canonical texts |
| Transactions.NewTransaction | app/domain/entities/transaction.py:18-56 | the accessors return the constructor arguments unchanged, and missing metadata becomes the empty mapping |
| Transactions.Transaction.AssessFraudRisk | app/domain/entities/transaction.py:58-66 | the step-by-step capped score equals the closed form: an error outside [0,1], else min(1, score + penalties) |
| Transactions.RiskScoreRejects | app/domain/entities/transaction.py:59-60 | the result is an error iff the model score lies outside [0,1], and then it is the ValueError with the source's message |
| Transactions.RiskScoreBounds | app/domain/entities/transaction.py:61-66 | a valid score s yields a risk in [s, 1] |
| Transactions.RiskScoreRaisedIff | app/domain/entities/transaction.py:61-66 | the risk exceeds the model score iff the score is below 1 and the amount is over 10000 or the hour is before 6 or after 22 |
| Transactions.LargeAmountRule | app/domain/entities/transaction.py:62-63 | at the same hour and with a model score of at most 0.85, so that the cap is not reached, an amount strictly over 10000 adds exactly 0.10 and any amount up to 10000, the threshold itself included, adds nothing |
| Transactions.OffHoursRule | app/domain/entities/transaction.py:64-65 | for the same amount and with a model score of at most 0.85, hours before 6 or after 22 add exactly 0.05 and hours 6 to 22 add nothing |
| Transactions.RiskScoreMonotone | app/domain/entities/transaction.py:61-66 | for a fixed transaction the risk does not decrease as the model score grows |
| Transactions.RiskScoreDependsOnAmountAndHour | app/domain/entities/transaction.py:58-66 | two transactions with the same amount and hour get the same risk; ids, weekday and metadata play no part |
| Transactions.RiskScoreExamples | app/domain/entities/transaction.py:62-66 | 15000 at 3 o'clock: 0.25 gives 0.40 and 0.95 gives 1.0; 12000 at 23 o'clock: 0.20 gives 0.35 |
| FraudDecisions.DecisionFromValue | app/domain/entities/fraud_decision.py:7-10 | `Decision(text)` gives a decision whose value is the text, or a ValueError when no decision has that value |
| FraudDecisions.DecisionValueRoundTrip | app/domain/entities/fraud_decision.py:7-10 | reading a decision's value back gives that decision |
| FraudDecisions.New | app/domain/entities/fraud_decision.py:14-26 | the constructor succeeds iff the score lies in [0,1], whatever decision is passed, and stores every argument verbatim |
| FraudDecisions.Create | app/domain/entities/fraud_decision.py:28-46 | `create` succeeds iff the score is in [0,1]; it decides APPROVE iff the score is below 0.3, REVIEW iff it is in [0.3, 0.7) and BLOCK iff it is at least 0.7, and stores the other arguments |
| FraudDecisions.NewRejectsWhateverDecision | app/domain/entities/fraud_decision.py:21-22 | scores 1.5 and -0.1 are rejected with the same ValueError for every decision |
| FraudDecisions.CreateBoundaries | app/domain/entities/fraud_decision.py:35-46 | 0.29 gives APPROVE, 0.30 REVIEW, 0.69 REVIEW and 0.70 BLOCK; -0.1 and 1.5 are rejected |
| FraudDecisions.CreateMonotone | app/domain/entities/fraud_decision.py:35-40 | within [0,1], a higher score never gives a milder decision (APPROVE < REVIEW < BLOCK) |
| FraudAssessment.DetermineDecision | app/domain/services/fraud_assessment_service.py:7-13 | APPROVE iff the score is below 0.3, REVIEW iff it is in [0.3, 0.7) and BLOCK iff it is at least 0.7, for every real score |
| FraudAssessment.AgreesWithCreate | app/domain/services/fraud_assessment_service.py:8-13 | for every score in [0,1], `create` succeeds and picks the decision `determine_decision` picks |
| FraudAssessment.DetermineDecisionMonotone | app/domain/services/fraud_assessment_service.py:8-13 | a higher score never gives a milder decision |
| FraudAssessment.DetermineDecisionOutOfRange | app/domain/services/fraud_assessment_service.py:7-13 | there is no range check: -0.5 gives APPROVE and 1.5 gives BLOCK |
| FraudScoring.Get | app/adapters/outbound/ml/fraud_scoring_service.py:26-27 | `metadata.get(key, default)` is the stored value when the key is present and the default otherwise |
| FraudScoring.HasValue | app/adapters/outbound/ml/fraud_scoring_service.py:26-27 | `len(metadata.get(key, "")) > 0` holds iff the key is present with a non-empty value |
| FraudScoring.ExtractFeatures | app/adapters/outbound/ml/fraud_scoring_service.py:17-28 | the vector has five entries: amount, hour and weekday as given, then a 1/0 flag for a non-empty "ip_address" and one for a non-empty "device_id" |
| FraudScoring.OtherKeysIgnored | app/adapters/outbound/ml/fraud_scoring_service.py:21-28 | setting any metadata key other than the two flagged ones leaves the vector unchanged |
| FraudScoring.FeaturesDependOnlyOn | app/adapters/outbound/ml/fraud_scoring_service.py:17-28 | transactions with the same amount, timestamp and presence flags get the same vector |
| FraudScoring.EmptyValueIsAbsent | app/adapters/outbound/ml/fraud_scoring_service.py:26-27 | an empty "ip_address" value counts as absent |
| DatabaseUrl.SchemeStep | app/adapters/outbound/persistence/database.py:12-15 | a `postgresql://` prefix becomes `postgresql+psycopg://` with the rest unchanged; a psycopg URL is untouched; otherwise the first `postgresql+asyncpg://` is replaced, and a URL without one passes through |
| DatabaseUrl.SslStep | app/adapters/outbound/persistence/database.py:16-18 | a URL with "supabase.co" and no "sslmode" gets `sslmode=require` after "?" or, when it already has a "?", after "&"; any other URL is unchanged; the result never has the host without "sslmode" |
| DatabaseUrl.SslStepIdempotent | app/adapters/outbound/persistence/database.py:16-18 | the SSL step applied twice appends only once |
| DatabaseUrl.SchemeStepKeepsSsl | app/adapters/outbound/persistence/database.py:12-15 | the scheme step neither introduces "supabase.co" nor removes "sslmode" |
| DatabaseUrl.RenormalizeAddsNoSslMode | app/adapters/outbound/persistence/database.py:12-18 | normalising an already normalised URL appends no second sslmode parameter |
| DatabaseUrl.NormalizeDatabaseUrl | app/adapters/outbound/persistence/database.py:12-18 | the in-place rewrite equals the scheme step followed by the SSL step, and its result never has the Supabase host without "sslmode" |
| AssessmentFlow.AssessAndDecide | app/application/use_cases/assess_fraud_risk_use_case.py:47-52 | scoring and then deciding succeeds iff the model score is in [0,1]; the decision carries the risk from `assess_fraud_risk`, which lies between the model score and 1, and the decision `determine_decision` gives for it |
| AssessmentFlow.AssessAndDecideMonotone | app/application/use_cases/assess_fraud_risk_use_case.py:47-52 | a higher model score never leads to a milder decision |
| AssessmentFlow.LargeNightTransactionReviewed | app/application/use_cases/assess_fraud_risk_use_case.py:47-52 | 12000 at 23 o'clock with model score 0.20 gives risk 0.35 and REVIEW |

## Left out

- HTTP layer (endpoints, request and response models, exception handlers): framework glue. The assessment endpoint turns every error into a 500, domain validation errors included; that is not modelled.
- Application start-up and the health check: they only set up the app and check liveness.
- Use cases: asynchronous orchestration over repositories and the scoring port. Only their pure composition of `assess_fraud_risk` and `create` is modelled (`AssessmentFlow`); the model probability and the decision time are parameters.
- Repositories, ORM models, and the engine, session, connection test and close parts of `Database`: database I/O. The ids are stored as text and rebuilt from it; `TransactionIds.CreateOfToString`, `UserIds.CreateIdempotent` and `MerchantIds.CreateIdempotent` state that this gives the same objects.
- TransactionAmounts.CreateIdempotent: the transaction repository stores `str(amount.value)` and rebuilds the amount from that text. `str` of a `Decimal` is not modelled, because the model's decimals do not carry their exponent. So the text round trip is proved only for integral amounts (`IntegralAmountReloaded`) and for any text that spells the stored value (`CreateText`), not for `Decimal(str(d)) == d` in general.
- `score_transaction`: a thread offload around the model's opaque `predict_proba`.
- Model loading and the training script: file I/O, randomness and floating-point arrays.
- Dependency wiring, configuration and logging.
- Floating point: scores and `float(amount)` are real numbers here. The exact examples (0.40, 0.35) hold for reals, not necessarily under IEEE rounding; `float(amount)` is taken as exact. A NaN score cannot be expressed: `assess_fraud_risk(float('nan'))` passes the range check, since every comparison with NaN is false, and returns 1.0; `FraudDecision` likewise accepts a NaN score, and `create` then picks BLOCK. The model rejects no such input and proves nothing about it.
- TransactionAmounts.Create: a float argument is represented by the real its `repr` spells, so float NaN and infinities are not inputs. A directly passed Decimal is a finite value; NaN and infinite Decimals are reached only through text.
- DecimalText.ParseDecimal: digits outside ASCII, which `Decimal` also accepts, are not modelled. The digit and exponent limits are those of the 64-bit build of the decimal library; the smaller limits of a 32-bit build are not modelled. The library reads an exponent that does not fit in 64 bits as its saturated value, which differs from the model only for texts of about 10^18 characters. A NaN whose diagnostic digits are more than the precision allows is accepted here, where the library refuses it.
- DecimalText.StrOfInt: the limit is the default of `sys.get_int_max_str_digits()`; a process that changes it with `sys.set_int_max_str_digits` is not modelled. The message is the one CPython 3.12 gives; CPython 3.11 words it slightly differently.
- Uuids.ParseUuid: `int(hex, 16)` also tolerates a sign, a `0x` prefix, underscores, surrounding whitespace and non-ASCII decimal digits (fullwidth or Arabic-Indic ones, for example) in the 32 characters that remain; those texts are rejected here, so `TransactionIds.Create` reports them as InvalidTransactionIdError where Python accepts them. The `bytes`, `fields` and `int` forms of the `UUID` constructor are not inputs of `create`.
- FraudDecisions.DecisionFromValue: the ValueError message the enum builds (it quotes the repr of the text) is not modelled; only its kind is.
- Timestamps carry only the hour and weekday, the only fields the core reads.
- Python with lone surrogate code points in strings is not modelled; a string is a sequence of Unicode characters.
