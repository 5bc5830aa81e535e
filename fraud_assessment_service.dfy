/** app/domain/services/fraud_assessment_service.py: the classification
    of a score on its own, with no range check. */
module FraudAssessment {
  import opened TransactionIds
  import opened DateTimes
  import opened FraudDecisions

  /** `FraudAssessmentService.determine_decision`: total; scores below 0
      approve and scores above 1 block. */
  function DetermineDecision(riskScore: real): (d: Decision)
    ensures d == Approve <==> riskScore < ReviewThreshold
    ensures d == Review <==> ReviewThreshold <= riskScore < BlockThreshold
    ensures d == Block <==> BlockThreshold <= riskScore
  {
    if riskScore < ReviewThreshold then Approve
    else if riskScore < BlockThreshold then Review
    else Block
  }

  /** On every score in [0, 1] it chooses what `FraudDecision.create`
      chooses. */
  lemma AgreesWithCreate(id: TransactionId, riskScore: real, ts: DateTime)
    requires 0.0 <= riskScore <= 1.0
    ensures FraudDecisions.Create(id, riskScore, ts).Ok?
    ensures FraudDecisions.Create(id, riskScore, ts).value.decision == DetermineDecision(riskScore)
  {
  }

  /** A higher score never yields a milder decision. */
  lemma DetermineDecisionMonotone(s1: real, s2: real)
    requires s1 <= s2
    ensures DetermineDecision(s1).Rank() <= DetermineDecision(s2).Rank()
  {
  }

  /** Out of range it still answers: -0.5 approves and 1.5 blocks. */
  lemma DetermineDecisionOutOfRange()
    ensures DetermineDecision(-0.5) == Approve && DetermineDecision(1.5) == Block
  {
  }
}
