/** app/domain/entities/transaction.py: the transaction under assessment
    and the deterministic rule layer applied on top of the model's
    probability. */
module Transactions {
  import opened Errors
  import opened TransactionIds
  import opened UserIds
  import opened MerchantIds
  import opened TransactionAmounts
  import opened DateTimes

  /** TransactionMetadata: string keys to string values. The recognised
      keys are ip_address, device_id, location and payment_method;
      others are kept as they are. */
  type Metadata = map<string, string>

  const LargeAmountThreshold: real := 10000.0
  const LargeAmountPenalty: real := 0.1
  const OffHoursPenalty: real := 0.05
  const MlScoreMessage := "ML score must be between 0.0 and 1.0"

  /** A transaction record; it never changes after construction, and its
      fields are its accessors. */
  datatype Transaction = Transaction(
    transactionId: TransactionId,
    userId: UserId,
    merchantId: MerchantId,
    amount: TransactionAmount,
    timestamp: DateTime,
    metadata: Metadata)
  {
    predicate IsLargeAmount() {
      amount.value > LargeAmountThreshold
    }

    /** Before 06:00 or from 23:00 on, by the timestamp's own hour. */
    predicate IsOffHours() {
      timestamp.hour < 6 || timestamp.hour > 22
    }

    /** `assess_fraud_risk`: the running score starts at the model's
        probability and each rule that fires adds its penalty, capped at
        1.0 after every step. */
    method AssessFraudRisk(mlScore: real) returns (r: Result<real>)
      ensures r == RiskScore(this, mlScore)
    {
      if mlScore < 0.0 || mlScore > 1.0 {
        return Err(ValueError(MlScoreMessage));
      }
      var baseRisk := mlScore;
      if amount.value > LargeAmountThreshold {
        baseRisk := Min(1.0, baseRisk + LargeAmountPenalty);
      }
      if timestamp.hour < 6 || timestamp.hour > 22 {
        baseRisk := Min(1.0, baseRisk + OffHoursPenalty);
      }
      return Ok(Min(1.0, baseRisk));
    }
  }

  function Min(a: real, b: real): (m: real) {
    if a <= b then a else b
  }

  /** `Transaction(...)`: the arguments are stored as given, and missing
      metadata becomes the empty mapping. */
  function NewTransaction(
    transactionId: TransactionId, userId: UserId, merchantId: MerchantId,
    amount: TransactionAmount, timestamp: DateTime, metadata: Option<Metadata>): (t: Transaction)
    ensures t.transactionId == transactionId && t.userId == userId && t.merchantId == merchantId
    ensures t.amount == amount && t.timestamp == timestamp
    ensures t.metadata == if metadata.Some? then metadata.value else map[]
  {
    Transaction(transactionId, userId, merchantId, amount, timestamp,
                match metadata case Some(m) => m case None => map[])
  }

  /** The sum of the penalties of the rules that fire. */
  function Penalty(t: Transaction): (p: real) {
    (if t.IsLargeAmount() then LargeAmountPenalty else 0.0)
    + (if t.IsOffHours() then OffHoursPenalty else 0.0)
  }

  /** The adjusted score in closed form: a probability plus the penalties
      that fire, capped once at 1.0; a score outside [0, 1] is refused. */
  function RiskScore(t: Transaction, mlScore: real): (r: Result<real>) {
    if mlScore < 0.0 || mlScore > 1.0 then Err(ValueError(MlScoreMessage))
    else Ok(Min(1.0, mlScore + Penalty(t)))
  }

  /** Only a probability is accepted, and the refusal is a ValueError. */
  lemma RiskScoreRejects(t: Transaction, mlScore: real)
    ensures RiskScore(t, mlScore).Err? <==> mlScore < 0.0 || mlScore > 1.0
    ensures RiskScore(t, mlScore).Err? ==> RiskScore(t, mlScore).error == ValueError(MlScoreMessage)
  {
  }

  /** The adjusted score never falls below the model's and never exceeds
      1.0. */
  lemma RiskScoreBounds(t: Transaction, mlScore: real)
    requires RiskScore(t, mlScore).Ok?
    ensures mlScore <= RiskScore(t, mlScore).value <= 1.0
  {
  }

  /** The score rises exactly when it is not yet 1.0 and a rule fires. */
  lemma RiskScoreRaisedIff(t: Transaction, mlScore: real)
    requires RiskScore(t, mlScore).Ok?
    ensures RiskScore(t, mlScore).value > mlScore <==>
      mlScore < 1.0 && (t.IsLargeAmount() || t.IsOffHours())
  {
  }

  /** Away from the cap, the large-amount rule adds exactly 0.1 when the
      amount is over 10,000 and nothing otherwise; in particular an
      amount of exactly 10,000 adds nothing. */
  lemma LargeAmountRule(t: Transaction, u: Transaction, mlScore: real)
    requires 0.0 <= mlScore <= 0.85
    requires t.timestamp.hour == u.timestamp.hour
    requires t.amount.value <= LargeAmountThreshold
    ensures u.amount.value > LargeAmountThreshold ==>
      RiskScore(u, mlScore).value == RiskScore(t, mlScore).value + LargeAmountPenalty
    ensures u.amount.value <= LargeAmountThreshold ==>
      RiskScore(u, mlScore).value == RiskScore(t, mlScore).value
  {
  }

  /** Away from the cap, the off-hours rule adds exactly 0.05 for hours
      0-5 and 23, and nothing for hours 6 to 22 inclusive. */
  lemma OffHoursRule(t: Transaction, u: Transaction, mlScore: real)
    requires 0.0 <= mlScore <= 0.85
    requires t.amount == u.amount
    requires 6 <= t.timestamp.hour <= 22
    ensures (u.timestamp.hour < 6 || u.timestamp.hour > 22) ==>
      RiskScore(u, mlScore).value == RiskScore(t, mlScore).value + OffHoursPenalty
    ensures 6 <= u.timestamp.hour <= 22 ==>
      RiskScore(u, mlScore).value == RiskScore(t, mlScore).value
  {
  }

  /** For a fixed transaction, a higher model score never gives a lower
      adjusted score. */
  lemma RiskScoreMonotone(t: Transaction, s1: real, s2: real)
    requires 0.0 <= s1 <= s2 <= 1.0
    ensures RiskScore(t, s1).value <= RiskScore(t, s2).value
  {
  }

  /** Only the amount and the hour of the timestamp matter: identifiers,
      weekday and metadata do not. */
  lemma RiskScoreDependsOnAmountAndHour(t: Transaction, u: Transaction, mlScore: real)
    requires t.amount == u.amount && t.timestamp.hour == u.timestamp.hour
    ensures RiskScore(t, mlScore) == RiskScore(u, mlScore)
  {
  }

  /** The worked examples: amount 15,000 at 03:00 takes 0.25 to 0.40 and
      0.95 to 1.0 (not 1.10); amount 12,000 at 23:00 takes 0.20 to
      0.35. */
  lemma RiskScoreExamples(t: Transaction, u: Transaction)
    requires t.amount.value == 15000.0 && t.timestamp.hour == 3
    requires u.amount.value == 12000.0 && u.timestamp.hour == 23
    ensures RiskScore(t, 0.25) == Ok(0.40)
    ensures RiskScore(t, 0.95) == Ok(1.0)
    ensures RiskScore(u, 0.20) == Ok(0.35)
  {
  }
}
