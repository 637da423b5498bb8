/**
 * The values the dashboards receive from the transport API, as far as the
 * scripts look at them. A field the scripts read with `||` is an Option:
 * None stands for a missing field or `null`, and the empty string is a
 * `Some("")` that the truthiness helpers of JsValues treat as falsy.
 */
module ApiData {
  import opened JsValues

  /** One transport: `{transport_id, company_name, role, first_position}`.
      firstTimestamp is `first_position.timestamp`, None when either the
      position or its timestamp is missing. */
  datatype TransportRecord = TransportRecord(
    transportId: Option<string>,
    companyName: Option<string>,
    role: Option<string>,
    firstTimestamp: Option<string>)

  /** The `transports` field of a decoded body: missing or falsy (`null`,
      `false`, `0`, `""`), an array of records, or some other truthy value
      (a number, a string, an object). */
  datatype TransportsField =
    | NoTransports
    | TransportArray(records: seq<TransportRecord>)
    | NonArrayValue

  /** A decoded JSON body: the literal `null`, or anything else. A number,
      string, boolean or array body has no `transports` property, so it
      reads as `ObjectBody(NoTransports)`. */
  datatype TransportsBody = NullBody | ObjectBody(transports: TransportsField)

  /** What a transport request ends with: a thrown error (network failure,
      a status other than 2xx, a body that is not JSON) or a decoded body. */
  datatype TransportsOutcome = RequestFailed | Received(body: TransportsBody)

  /** One point of the heatmap collection; passed through untouched. */
  datatype HeatFeature = HeatFeature(lng: real, lat: real, weight: real)

  /** What a heatmap request ends with; `features` is None when the body's
      `features` field is missing or falsy. */
  datatype HeatmapOutcome =
    | HeatmapFailed
    | HeatmapNull
    | HeatmapBody(features: Option<seq<HeatFeature>>)
}
