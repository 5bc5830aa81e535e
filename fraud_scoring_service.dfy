/** app/adapters/outbound/ml/fraud_scoring_service.py: the feature vector
    handed to the fraud model. */
module FraudScoring {
  import opened Transactions

  const IpAddressKey := "ip_address"
  const DeviceIdKey := "device_id"

  /** `metadata.get(key, default)`. */
  function Get(metadata: Metadata, key: string, default: string): (v: string)
    ensures key in metadata ==> v == metadata[key]
    ensures key !in metadata ==> v == default
  {
    if key in metadata then metadata[key] else default
  }

  /** `len(metadata.get(key, "")) > 0`: the key is present with a
      non-empty value. */
  predicate HasValue(metadata: Metadata, key: string)
    ensures HasValue(metadata, key) <==> key in metadata && metadata[key] != ""
  {
    |Get(metadata, key, "")| > 0
  }

  function Flag(b: bool): (f: real) {
    if b then 1.0 else 0.0
  }

  /** `_extract_features`: amount, hour, weekday, then whether an IP
      address and a device id are present. */
  function ExtractFeatures(t: Transaction): (f: seq<real>)
    ensures |f| == 5
    ensures f[0] == t.amount.value
    ensures f[1] == t.timestamp.hour as real && f[2] == t.timestamp.weekday as real
    ensures f[3] == 1.0 <==> HasValue(t.metadata, IpAddressKey)
    ensures f[4] == 1.0 <==> HasValue(t.metadata, DeviceIdKey)
    ensures forall i :: 3 <= i < 5 ==> f[i] == 0.0 || f[i] == 1.0
  {
    [ t.amount.value,
      t.timestamp.hour as real,
      t.timestamp.weekday as real,
      Flag(HasValue(t.metadata, IpAddressKey)),
      Flag(HasValue(t.metadata, DeviceIdKey)) ]
  }

  /** Setting any other metadata key (location, payment_method or an
      unrecognised one) leaves the vector unchanged. */
  lemma OtherKeysIgnored(t: Transaction, key: string, value: string)
    requires key != IpAddressKey && key != DeviceIdKey
    ensures ExtractFeatures(t.(metadata := t.metadata[key := value])) == ExtractFeatures(t)
  {
  }

  /** The vector is determined by the amount, the hour, the weekday and
      the two presence flags; identifiers play no part. */
  lemma FeaturesDependOnlyOn(t: Transaction, u: Transaction)
    requires t.amount == u.amount && t.timestamp == u.timestamp
    requires HasValue(t.metadata, IpAddressKey) == HasValue(u.metadata, IpAddressKey)
    requires HasValue(t.metadata, DeviceIdKey) == HasValue(u.metadata, DeviceIdKey)
    ensures ExtractFeatures(t) == ExtractFeatures(u)
  {
  }

  /** An empty address counts as absent. */
  lemma EmptyValueIsAbsent(t: Transaction)
    requires t.metadata == map[IpAddressKey := "", DeviceIdKey := "d-1"]
    ensures ExtractFeatures(t)[3] == 0.0 && ExtractFeatures(t)[4] == 1.0
  {
  }
}
