/** The error taxonomy of the fraud-risk domain, together with the two
    exceptions of the Python runtime that the domain code lets escape.
    Every operation that can raise returns a `Result` instead. */
module Errors {

  datatype Error =
    // app/domain/exceptions.py: the DomainException family
    | InvalidTransactionAmount(message: string)
    | InvalidUserId(message: string)
    | InvalidMerchantId(message: string)
    | InvalidTransactionId(message: string)
    | FraudDecisionNotFound(message: string)
    | TransactionNotFound(message: string)
    // the built-in ValueError, raised for a score outside [0, 1] and for an
    // unknown Decision value
    | ValueError(message: string)
    // decimal.InvalidOperation, raised by Decimal() on malformed text and by
    // an ordering comparison with a NaN
    | DecimalInvalidOperation
  {
    /** The kinds that are subclasses of DomainException. */
    predicate IsDomainError() {
      !ValueError? && !DecimalInvalidOperation?
    }
  }

  datatype Result<+T> = Ok(value: T) | Err(error: Error)

  datatype Option<+T> = None | Some(value: T)
}
