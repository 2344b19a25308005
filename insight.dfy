/**
 * The JSON payload that the backend's query endpoint returns and the frontend
 * renders: a summary, the echoed query, the matched localities, one time
 * series per locality for the chart, and the filtered dataset rows.
 */
module Insight {
  import opened Wrappers

  /** A table cell as the browser sees it: JSON `null` (or a missing key),
      or a scalar whose JavaScript string form (`String(v)`) is `text`. */
  datatype Value = Null | Scalar(text: string)

  /** A JSON object: its keys in enumeration order and its key/value pairs. */
  datatype Row = Row(keys: seq<string>, cells: map<string, Value>)

  /** One chart point; `year`, `price` and `demand` may each be JSON `null`
      (or absent), which is `None` here. */
  datatype Point = Point(year: Option<int>, price: Option<real>, demand: Option<real>)

  /** One locality's series; `points` is `None` when the key is missing. */
  datatype Series = Series(name: string, points: Option<seq<Point>>)

  datatype Payload = Payload(
    summary: string,
    query: string,
    areas: seq<string>,
    chart: seq<Series>,
    table: seq<Row>)
}
