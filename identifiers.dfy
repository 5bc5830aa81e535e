/** What the two string identifiers, UserId and MerchantId, have in
    common: the maximum raw length and the shape of a stored value. */
module Identifiers {
  import opened Text

  const MaxLength: nat := 100

  /** The shape of every value that `create` stores: non-empty, at most
      MaxLength characters, no leading or trailing whitespace. */
  predicate IsTrimmedIdentifier(s: string) {
    0 < |s| <= MaxLength && !IsSpace(s[0]) && !IsSpace(s[|s| - 1])
  }

  /** A stored value is its own stripped form and passes both guards. */
  lemma TrimmedIsStable(s: string)
    requires IsTrimmedIdentifier(s)
    ensures Strip(s) == s
    ensures Strip(s) != [] && |s| <= MaxLength
  {
    TrimOfTrimmed(s, IsSpace);
  }
}
