/** The dynamically typed JSON values of the Ad Library API, as a closed union,
    and the records (ad archives) built from them. */
module Values {

  /** One JSON value as Python sees it after `json.loads`: a string, any other
      scalar (number, boolean, null) carried with its `str()` spelling, a list,
      or a mapping. */
  datatype Value =
    | Str(text: string)
    | Scalar(repr: string)
    | List(items: seq<Value>)
    | Dict(entries: map<string, Value>)

  /** One ad archive: field name to value. */
  type Record = map<string, Value>

  /** `json.dumps`: a foreign serialiser, taken as a parameter wherever it is used. */
  type Encoder = Value -> string

  const StartTimeField := "ad_delivery_start_time"
  const SnapshotUrlField := "ad_snapshot_url"
}
