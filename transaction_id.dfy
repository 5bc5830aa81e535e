/** app/domain/value_objects/transaction_id.py: a transaction identifier
    wrapping a UUID. */
module TransactionIds {
  import opened Errors
  import opened Uuids

  const FormatMessagePrefix := "Invalid transaction ID format: "

  /** The frozen dataclass: equal exactly when the UUIDs are equal. */
  datatype TransactionId = TransactionId(value: Uuid)

  /** The argument of `create`: text or an existing UUID. */
  datatype TransactionIdInput = FromText(text: string) | FromUuid(uuid: Uuid)

  /** `TransactionId.create`: a UUID is wrapped as it is; text is read
      with `UUID(text)`, and text it cannot read is reported as an
      InvalidTransactionIdError naming the text. */
  function Create(input: TransactionIdInput): (r: Result<TransactionId>)
    ensures input.FromUuid? ==> r == Ok(TransactionId(input.uuid))
    ensures input.FromText? ==>
      match ParseUuid(input.text)
      case Some(u) => r == Ok(TransactionId(u))
      case None => r == Err(InvalidTransactionId(FormatMessagePrefix + input.text))
    ensures r.Err? ==> r.error.InvalidTransactionId?
  {
    match input
    case FromText(text) =>
      (match ParseUuid(text)
       case Some(u) => Ok(TransactionId(u))
       case None => Err(InvalidTransactionId(FormatMessagePrefix + text)))
    case FromUuid(u) => Ok(TransactionId(u))
  }

  /** `str(id)`: the canonical text of the wrapped UUID. */
  function ToString(id: TransactionId): (s: string)
    ensures s == UuidToString(id.value)
    ensures |s| == 36
  {
    UuidToString(id.value)
  }

  /** The repositories store `str(id.value)` and rebuild the identifier
      with `create`: the round trip gives the same identifier. */
  lemma CreateOfToString(id: TransactionId)
    ensures Create(FromText(ToString(id))) == Ok(id)
  {
    ParseOfToString(id.value);
  }

  /** Two identifiers have the same text exactly when they are equal. */
  lemma ToStringInjective(a: TransactionId, b: TransactionId)
    ensures ToString(a) == ToString(b) <==> a == b
  {
    if ToString(a) == ToString(b) {
      Uuids.ToStringInjective(a.value, b.value);
    }
  }
}
