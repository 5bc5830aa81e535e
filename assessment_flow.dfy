/** app/application/use_cases/assess_fraud_risk_use_case.py, lines 47-52:
    the one step of the use case that is pure. The transaction's rule layer
    turns the model probability into a risk score, and the decision is made
    from that score. Saving, scoring and the clock are left to the caller:
    the model probability and the decision timestamp are parameters. */
module AssessmentFlow {
  import opened Errors
  import opened DateTimes
  import opened Transactions
  import opened FraudDecisions
  import opened FraudAssessment

  /** `assess_fraud_risk` followed by `FraudDecision.create`; an error in
      the first step propagates and no decision is made. */
  function AssessAndDecide(t: Transaction, mlScore: real, now: DateTime): (r: Result<FraudDecision>)
    ensures r.Ok? <==> 0.0 <= mlScore <= 1.0
    ensures r.Err? ==> r.error == ValueError(MlScoreMessage)
    ensures r.Ok? ==> r.value.transactionId == t.transactionId && r.value.timestamp == now
    ensures r.Ok? ==> RiskScore(t, mlScore) == Ok(r.value.riskScore)
    ensures r.Ok? ==> mlScore <= r.value.riskScore <= 1.0
    ensures r.Ok? ==> r.value.decision == DetermineDecision(r.value.riskScore)
  {
    RiskScoreRejects(t, mlScore);
    match RiskScore(t, mlScore)
    case Err(e) => Err(e)
    case Ok(risk) =>
      RiskScoreBounds(t, mlScore);
      AgreesWithCreate(t.transactionId, risk, now);
      FraudDecisions.Create(t.transactionId, risk, now)
  }

  /** A higher model probability never leads to a milder decision. */
  lemma AssessAndDecideMonotone(t: Transaction, s1: real, s2: real, now: DateTime)
    requires 0.0 <= s1 <= s2 <= 1.0
    ensures AssessAndDecide(t, s1, now).value.decision.Rank() <= AssessAndDecide(t, s2, now).value.decision.Rank()
  {
    RiskScoreMonotone(t, s1, s2);
    DetermineDecisionMonotone(RiskScore(t, s1).value, RiskScore(t, s2).value);
  }

  /** A large night-time transaction with a low model probability is sent
      to review: 0.20 + 0.10 + 0.05 = 0.35. */
  lemma LargeNightTransactionReviewed(t: Transaction, now: DateTime)
    requires t.amount.value == 12000.0 && t.timestamp.hour == 23
    ensures AssessAndDecide(t, 0.20, now).value.riskScore == 0.35
    ensures AssessAndDecide(t, 0.20, now).value.decision == Review
  {
    assert RiskScore(t, 0.20) == Ok(0.35);
  }
}
