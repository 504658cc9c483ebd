/** Stored snapshots as the aggregation reads them (app/aggregation/period.py,
    app/aggregation/provenance.py), and folds over sequences of them. */
module Snapshots {
  import opened Orders

  /** A stored JSON-like value. Numbers are exact; `NonFinite` is a float infinity or NaN. */
  datatype Value =
    | Null
    | Bool(b: bool)
    | Number(r: real)
    | NonFinite
    | Text(text: string)
    | Other(truthy: bool)

  type Fields = map<string, Value>

  /** `threshold_profile` of the metadata: the value None, a mapping, or something else. */
  datatype Profile = NoProfile | ProfileRef(id: Value, version: Value) | NotAMapping

  /** `analysis_meta`; each field is None where the key is absent. */
  datatype Meta = Meta(schema: Option<Value>, appVersion: Option<Value>, profile: Option<Profile>)

  /** `summary` and `meta` are None where the stored value is not a mapping. */
  datatype Snapshot = Snapshot(
    timestamp: Value,
    summary: Option<Fields>,
    meta: Option<Meta>,
    dsChannels: seq<Fields>,
    usChannels: seq<Fields>)

  datatype Kind = UsPowerHigh | UsPowerLow | DsPowerHigh | DsPowerLow | SnrLow

  datatype ChannelIdentity = Numbered(n: int) | Named(name: string)

  /** A diagnostic note; `kind` is None for a type outside the known five, `deviation` and `value`
      where the note holds no such number. */
  datatype Note = Note(
    kind: Option<Kind>,
    deviation: Option<real>,
    value: Option<real>,
    channel: ChannelIdentity,
    channelType: string,
    text: string)

  /** What the aggregation calls but this model does not contain: `float` on text, timestamp
      normalisation, the content digest, the SNR warning threshold that the active thresholds give
      a channel, and the notes of one snapshot. */
  datatype Env = Env(
    parse: string -> Option<real>,
    canonical: Value -> string,
    digest: Snapshot -> string,
    warnMin: Fields -> Value,
    notes: Snapshot -> seq<Note>)

  /** `_number`: a finite number, and never a boolean. */
  function AsNumber(v: Value, env: Env): Option<real> {
    match v
    case Number(r) => Some(r)
    case Text(text) => env.parse(text)
    case _ => None
  }

  function Truthy(v: Value): bool {
    match v
    case Null => false
    case Bool(b) => b
    case Number(r) => r != 0.0
    case NonFinite => true
    case Text(text) => text != ""
    case Other(truthy) => truthy
  }

  /** The values that count as false. */
  const FALSY := {Null, Bool(false), Number(0.0), Text(""), Other(false)}

  lemma FalsyValues(v: Value)
    ensures Truthy(v) <==> v !in FALSY
  {
  }

  function Field(fields: Fields, key: string): Value { if key in fields then fields[key] else Null }
}
