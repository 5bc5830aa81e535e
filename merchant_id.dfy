/** app/domain/value_objects/merchant_id.py: a validated merchant identifier. */
module MerchantIds {
  import opened Errors
  import opened Text
  import opened Identifiers

  const EmptyMessage := "Merchant ID cannot be empty"
  const TooLongMessage := "Merchant ID exceeds maximum length"

  /** The frozen dataclass; building it directly validates nothing. */
  datatype MerchantId = MerchantId(value: string)

  /** `MerchantId.create`: blank input is rejected first, then input whose
      raw, unstripped length exceeds MaxLength; the stripped input is
      stored. */
  function Create(value: string): (r: Result<MerchantId>)
    ensures r.Ok? <==> Strip(value) != [] && |value| <= MaxLength
    ensures r.Ok? ==> r.value.value == Strip(value) && IsTrimmedIdentifier(r.value.value)
    ensures Strip(value) == [] ==> r == Err(InvalidMerchantId(EmptyMessage))
    ensures Strip(value) != [] && |value| > MaxLength ==> r == Err(InvalidMerchantId(TooLongMessage))
  {
    if value == [] || Strip(value) == [] then Err(InvalidMerchantId(EmptyMessage))
    else if |value| > MaxLength then Err(InvalidMerchantId(TooLongMessage))
    else Ok(MerchantId(Strip(value)))
  }

  /** Rebuilding a MerchantId from its stored value, as the transaction
      repository does, gives the same MerchantId. */
  lemma CreateIdempotent(value: string)
    requires Create(value).Ok?
    ensures Create(Create(value).value.value) == Create(value)
  {
    TrimmedIsStable(Strip(value));
  }

  /** Whitespace-only input fails the emptiness check, whatever its
      length. */
  lemma BlankRejectedFirst(value: string)
    requires forall i :: 0 <= i < |value| ==> IsSpace(value[i])
    ensures Create(value) == Err(InvalidMerchantId(EmptyMessage))
  {
  }

  /** The length limit applies to the raw input: 100 letters with one
      leading blank are rejected, though the stripped text would fit. */
  lemma PaddedInputRejected()
    ensures Create(" " + seq(100, i => 'a')) == Err(InvalidMerchantId(TooLongMessage))
  {
    var v := " " + seq(100, i => 'a');
    assert !IsSpace(v[1]);
  }
}
