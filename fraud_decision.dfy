/** app/domain/entities/fraud_decision.py: the categorical outcome of an
    assessment and the record that carries it. */
module FraudDecisions {
  import opened Errors
  import opened TransactionIds
  import opened DateTimes

  const ReviewThreshold: real := 0.3
  const BlockThreshold: real := 0.7
  const RiskScoreMessage := "Risk score must be between 0.0 and 1.0"

  /** The Decision enumeration, closed, ordered by severity. */
  datatype Decision = Approve | Review | Block
  {
    /** `decision.value`, the text the decision is stored and reported as. */
    function Value(): (s: string) {
      match this
      case Approve => "approve"
      case Review => "review"
      case Block => "block"
    }

    /** Position in the order APPROVE < REVIEW < BLOCK. */
    function Rank(): (k: nat) {
      match this
      case Approve => 0
      case Review => 1
      case Block => 2
    }
  }

  /** `Decision(text)`, as the decision repository rebuilds a stored
      decision: a ValueError for any text that is not one of the values. */
  function DecisionFromValue(text: string): (r: Result<Decision>)
    ensures r.Ok? ==> r.value.Value() == text
    ensures r.Err? ==> r.error.ValueError? && forall d: Decision :: d.Value() != text
  {
    if text == "approve" then Ok(Approve)
    else if text == "review" then Ok(Review)
    else if text == "block" then Ok(Block)
    else Err(ValueError("'" + text + "' is not a valid Decision"))
  }

  /** Reading back the value of a decision gives the same decision, so the
      three values are distinct. */
  lemma DecisionValueRoundTrip(d: Decision)
    ensures DecisionFromValue(d.Value()) == Ok(d)
  {
  }

  /** The record. Its fields are its accessors. */
  datatype FraudDecision = FraudDecision(
    transactionId: TransactionId,
    riskScore: real,
    decision: Decision,
    timestamp: DateTime)

  /** `FraudDecision(...)`: the score must lie in [0, 1]; the decision is
      stored as given, whatever the score. */
  function New(
    transactionId: TransactionId, riskScore: real, decision: Decision, timestamp: DateTime)
    : (r: Result<FraudDecision>)
    ensures r.Ok? <==> 0.0 <= riskScore <= 1.0
    ensures r.Ok? ==> r.value == FraudDecision(transactionId, riskScore, decision, timestamp)
    ensures r.Err? ==> r.error == ValueError(RiskScoreMessage)
  {
    if riskScore < 0.0 || riskScore > 1.0 then Err(ValueError(RiskScoreMessage))
    else Ok(FraudDecision(transactionId, riskScore, decision, timestamp))
  }

  /** `FraudDecision.create`: the decision is chosen from the score at
      the thresholds 0.3 and 0.7 (each band closed below, open above),
      then the constructor checks the score. */
  function Create(transactionId: TransactionId, riskScore: real, timestamp: DateTime)
    : (r: Result<FraudDecision>)
    ensures r.Ok? <==> 0.0 <= riskScore <= 1.0
    ensures r.Err? ==> r.error == ValueError(RiskScoreMessage)
    ensures r.Ok? ==>
      r.value.transactionId == transactionId && r.value.riskScore == riskScore && r.value.timestamp == timestamp
    ensures r.Ok? ==> (r.value.decision == Approve <==> riskScore < ReviewThreshold)
    ensures r.Ok? ==> (r.value.decision == Review <==> ReviewThreshold <= riskScore < BlockThreshold)
    ensures r.Ok? ==> (r.value.decision == Block <==> BlockThreshold <= riskScore)
  {
    var decision :=
      if riskScore < ReviewThreshold then Approve
      else if riskScore < BlockThreshold then Review
      else Block;
    New(transactionId, riskScore, decision, timestamp)
  }

  /** The constructor refuses 1.5 whichever decision it is given. */
  lemma NewRejectsWhateverDecision(id: TransactionId, d: Decision, ts: DateTime)
    ensures New(id, 1.5, d, ts) == Err(ValueError(RiskScoreMessage))
    ensures New(id, -0.1, d, ts) == Err(ValueError(RiskScoreMessage))
  {
  }

  /** The boundaries: 0.29 approves, 0.30 and 0.69 review, 0.70 blocks;
      -0.1 and 1.5 are refused. */
  lemma CreateBoundaries(id: TransactionId, ts: DateTime)
    ensures Create(id, 0.29, ts).value.decision == Approve
    ensures Create(id, 0.30, ts).value.decision == Review
    ensures Create(id, 0.69, ts).value.decision == Review
    ensures Create(id, 0.70, ts).value.decision == Block
    ensures Create(id, -0.1, ts).Err? && Create(id, 1.5, ts).Err?
  {
  }

  /** A higher score never yields a milder decision. */
  lemma CreateMonotone(id: TransactionId, s1: real, s2: real, ts: DateTime)
    requires 0.0 <= s1 <= s2 <= 1.0
    ensures Create(id, s1, ts).value.decision.Rank() <= Create(id, s2, ts).value.decision.Rank()
  {
  }
}
