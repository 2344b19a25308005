/**
 * The query endpoint: the checks that turn a request away with an error
 * status, and the assembly of the insight payload for a request that passes
 * them. The dataset, the language-model summary, the per-locality rule
 * summary and the chart builder are inputs: the dataset as its column names
 * and rows, the three builders as functions of what the endpoint hands them.
 */
module Views {
  import opened Wrappers
  import opened Text
  import opened Insight
  import Utils

  const AreaCol := "final location"
  const YearCol := "year"

  /** The request body after JSON decoding. A body that does not decode
      counts as an empty object. `NotAnObject` is a body that decodes to JSON
      other than an object (`null`, an array, a string, a number or a
      boolean), which has no `get`. `query` is `None` when the key is missing
      or holds JSON `null`. */
  datatype Body = Unparsable | NotAnObject | Object(query: Option<string>)

  datatype Request = Request(httpMethod: string, body: Body)

  /** The loaded dataset: its column names and its rows. */
  datatype Dataset = Dataset(columns: seq<string>, rows: seq<Row>)

  /** `Crash` is the framework's answer to an exception the view does not
      catch: status 500 without a JSON error. */
  datatype Response =
    | Failure(status: int, error: string)
    | Crash
    | Success(payload: Payload)

  function Status(r: Response): int
  {
    match r
    case Success(_) => 200
    case Crash => 500
    case Failure(status, _) => status
  }

  /** `payload.get("query", "")`, with the fallback for a body that does
      not decode. A body that is not an object has no query (the view raises
      before it asks for one). */
  function QueryOf(b: Body): string
  {
    match b
    case Unparsable => ""
    case NotAnObject => ""
    case Object(q) => if q.Some? then q.value else ""
  }

  /** The locality of a row, or `None` when its cell is empty. */
  function AreaOf(r: Row): Option<string>
  {
    if AreaCol in r.cells && r.cells[AreaCol].Scalar? then Some(r.cells[AreaCol].text) else None
  }

  /** The localities of the rows in order of appearance, empty cells dropped. */
  function PresentAreas(rows: seq<Row>): (r: seq<string>)
    ensures forall a :: a in r <==> exists i :: 0 <= i < |rows| && AreaOf(rows[i]) == Some(a)
  {
    if rows == [] then []
    else
      var rest := PresentAreas(rows[1..]);
      assert forall i :: 0 < i < |rows| ==> rows[i] == rows[1..][i - 1];
      assert forall i :: 0 <= i < |rows| - 1 ==> rows[1..][i] == rows[i + 1];
      (if AreaOf(rows[0]).Some? then [AreaOf(rows[0]).value] else []) + rest
  }

  /** `df[AREA_COL].dropna().unique()`. */
  function AreasInData(rows: seq<Row>): seq<string>
  {
    Dedupe(PresentAreas(rows))
  }

  /** The rows whose locality is one of `selected`, in dataset order. */
  function Filtered(rows: seq<Row>, selected: seq<string>): (r: seq<Row>)
    ensures forall row :: row in r <==> row in rows && AreaOf(row).Some? && AreaOf(row).value in selected
  {
    if rows == [] then []
    else
      (if AreaOf(rows[0]).Some? && AreaOf(rows[0]).value in selected then [rows[0]] else []) +
      Filtered(rows[1..], selected)
  }

  /** The rule summary of each selected locality, in selected order. */
  function RuleParts(selected: seq<string>, filtered: seq<Row>,
                     rule: (string, seq<Row>) -> string): (parts: seq<string>)
    ensures |parts| == |selected|
  {
    seq(|selected|, i requires 0 <= i < |selected| =>
      rule(selected[i], Filtered(filtered, [selected[i]])))
  }

  /** The language model's text when it is a non-empty string, else the rule
      summaries joined by single spaces. */
  function SummaryText(llm: Option<string>, parts: seq<string>): string
  {
    if llm.Some? && llm.value != "" then llm.value else Join(parts, " ")
  }

  /** The endpoint's answer, check by check. */
  function Dispatch(req: Request, df: Dataset,
                    llm: (string, seq<string>, seq<Row>) -> Option<string>,
                    rule: (string, seq<Row>) -> string,
                    chart: (seq<Row>, seq<string>) -> seq<Series>): Response
  {
    if req.httpMethod != "POST" then Failure(405, "Only POST allowed")
    else if req.body.NotAnObject? then Crash
    else
      var query := QueryOf(req.body);
      if query == "" then Failure(400, "Query is required")
      else if AreaCol !in df.columns || YearCol !in df.columns then
        Failure(500, "Dataset does not have required columns")
      else
        var selected := Utils.MatchedAreas(query, AreasInData(df.rows));
        if selected == [] then Failure(404, "No matching localities found in dataset")
        else
          var filtered := Filtered(df.rows, selected);
          var summary := SummaryText(llm(query, selected, filtered), RuleParts(selected, filtered, rule));
          Success(Payload(summary, query, selected, chart(filtered, selected), filtered))
  }

  /** `query_view`. */
  method QueryView(req: Request, df: Dataset,
                   llm: (string, seq<string>, seq<Row>) -> Option<string>,
                   rule: (string, seq<Row>) -> string,
                   chart: (seq<Row>, seq<string>) -> seq<Series>)
    returns (resp: Response)
    ensures resp == Dispatch(req, df, llm, rule, chart)
  {
    if req.httpMethod != "POST" {
      return Failure(405, "Only POST allowed");
    }
    if req.body.NotAnObject? {
      return Crash;
    }
    var query := QueryOf(req.body);
    if query == "" {
      return Failure(400, "Query is required");
    }
    if AreaCol !in df.columns || YearCol !in df.columns {
      return Failure(500, "Dataset does not have required columns");
    }
    var selected := Utils.ExtractAreas(query, AreasInData(df.rows));
    if selected == [] {
      return Failure(404, "No matching localities found in dataset");
    }
    var filtered := Filtered(df.rows, selected);
    var summary: string;
    var text := llm(query, selected, filtered);
    if text.Some? && text.value != "" {
      summary := text.value;
    } else {
      var parts := RuleSummaries(selected, filtered, rule);
      summary := Join(parts, " ");
    }
    var table := TableRows(filtered);
    return Success(Payload(summary, query, selected, chart(filtered, selected), table));
  }

  /** The loop over the selected localities that collects their rule summaries. */
  method RuleSummaries(selected: seq<string>, filtered: seq<Row>, rule: (string, seq<Row>) -> string)
    returns (parts: seq<string>)
    ensures parts == RuleParts(selected, filtered, rule)
  {
    parts := [];
    for i := 0 to |selected|
      invariant parts == RuleParts(selected[..i], filtered, rule)
    {
      var area := selected[i];
      parts := parts + [rule(area, Filtered(filtered, [area]))];
    }
    assert selected[..|selected|] == selected;
  }

  /** The loop over the filtered rows that fills the table, one entry per row. */
  method TableRows(filtered: seq<Row>) returns (table: seq<Row>)
    ensures table == filtered
  {
    table := [];
    for i := 0 to |filtered|
      invariant table == filtered[..i]
    {
      table := table + [filtered[i]];
    }
    assert filtered[..|filtered|] == filtered;
  }

  /** Which status a request gets. The method is checked before anything
      else; a body that decodes to something other than an object makes the
      view raise; a body that does not decode is treated like one without a
      query;
      a dataset missing either key column is a server error; a query that
      names no locality of the dataset, neither whole nor by one of its words
      longer than two characters, is "not found". */
  lemma DispatchStatus(req: Request, df: Dataset,
                       llm: (string, seq<string>, seq<Row>) -> Option<string>,
                       rule: (string, seq<Row>) -> string,
                       chart: (seq<Row>, seq<string>) -> seq<Series>)
    ensures var r := Dispatch(req, df, llm, rule, chart);
            var q := QueryOf(req.body);
            var areas := AreasInData(df.rows);
            && (Status(r) == 405 <==> req.httpMethod != "POST")
            && (r.Crash? <==> req.httpMethod == "POST" && req.body.NotAnObject?)
            && (Status(r) == 400 <==> req.httpMethod == "POST" && !req.body.NotAnObject? && q == "")
            && (Status(r) == 500 <==> req.httpMethod == "POST" &&
                                      (req.body.NotAnObject? ||
                                       (q != "" && (AreaCol !in df.columns || YearCol !in df.columns))))
            && (Status(r) == 404 <==> req.httpMethod == "POST" && !req.body.NotAnObject? && q != "" &&
                                      AreaCol in df.columns && YearCol in df.columns &&
                                      (forall a :: a in areas ==> !IsInfix(Lower(a), Lower(q))) &&
                                      (forall a :: a in areas ==> !Utils.SomeWordIn(Utils.LongWords(Lower(q)), a)))
            && (r.Success? <==> Status(r) == 200)
  {
    Utils.MatchedAreasEmpty(QueryOf(req.body), AreasInData(df.rows));
  }

  /** A body that does not decode is answered exactly like `{}`. */
  lemma UnparsableIsEmptyObject(m: string, df: Dataset,
                                llm: (string, seq<string>, seq<Row>) -> Option<string>,
                                rule: (string, seq<Row>) -> string,
                                chart: (seq<Row>, seq<string>) -> seq<Series>)
    ensures Dispatch(Request(m, Unparsable), df, llm, rule, chart) ==
            Dispatch(Request(m, Object(None)), df, llm, rule, chart)
    ensures m == "POST" ==> Dispatch(Request(m, Unparsable), df, llm, rule, chart) ==
                            Failure(400, "Query is required")
  {
  }

  /** A successful answer echoes the query, lists distinct localities of the
      dataset, gives every row of those localities (and no other) in dataset
      order, and shows at least one row for each listed locality. */
  lemma SuccessShape(req: Request, df: Dataset,
                     llm: (string, seq<string>, seq<Row>) -> Option<string>,
                     rule: (string, seq<Row>) -> string,
                     chart: (seq<Row>, seq<string>) -> seq<Series>)
    requires Dispatch(req, df, llm, rule, chart).Success?
    ensures var p := Dispatch(req, df, llm, rule, chart).payload;
            && p.query == QueryOf(req.body) && p.query != ""
            && p.areas != [] && NoDuplicates(p.areas)
            && (forall a :: a in p.areas ==> exists i :: 0 <= i < |df.rows| && AreaOf(df.rows[i]) == Some(a))
            && p.table == Filtered(df.rows, p.areas)
            && (forall row :: row in p.table <==>
                  row in df.rows && AreaOf(row).Some? && AreaOf(row).value in p.areas)
            && (forall a :: a in p.areas ==> exists row :: row in p.table && AreaOf(row) == Some(a))
  {
    var q := QueryOf(req.body);
    var selected := Utils.MatchedAreas(q, AreasInData(df.rows));
    DispatchSuccess(req, df, llm, rule, chart);
    Utils.MatchedAreasSpec(q, AreasInData(df.rows));
    DedupeSpec(PresentAreas(df.rows));
    EveryAreaShown(df.rows, selected);
  }

  /** What a successful answer is made of. */
  lemma DispatchSuccess(req: Request, df: Dataset,
                        llm: (string, seq<string>, seq<Row>) -> Option<string>,
                        rule: (string, seq<Row>) -> string,
                        chart: (seq<Row>, seq<string>) -> seq<Series>)
    requires Dispatch(req, df, llm, rule, chart).Success?
    ensures var q := QueryOf(req.body);
            var selected := Utils.MatchedAreas(q, AreasInData(df.rows));
            var filtered := Filtered(df.rows, selected);
            && q != "" && selected != []
            && Dispatch(req, df, llm, rule, chart).payload ==
               Payload(SummaryText(llm(q, selected, filtered), RuleParts(selected, filtered, rule)),
                       q, selected, chart(filtered, selected), filtered)
  {
    assert req.httpMethod == "POST" && !req.body.NotAnObject?;
    assert QueryOf(req.body) != "";
    assert AreaCol in df.columns && YearCol in df.columns;
  }

  /** Each selected locality that occurs in the rows keeps at least one row. */
  lemma EveryAreaShown(rows: seq<Row>, selected: seq<string>)
    requires forall a :: a in selected ==> a in PresentAreas(rows)
    ensures forall a :: a in selected ==> exists row :: row in Filtered(rows, selected) && AreaOf(row) == Some(a)
  {
    forall a | a in selected ensures exists row :: row in Filtered(rows, selected) && AreaOf(row) == Some(a) {
      var i :| 0 <= i < |rows| && AreaOf(rows[i]) == Some(a);
      assert rows[i] in Filtered(rows, selected);
    }
  }

  /** Without a usable language-model text the summary is the rule summaries
      of the listed localities, in listed order, each over that locality's
      rows only, joined by single spaces. */
  lemma RuleSummaryFallback(req: Request, df: Dataset,
                            llm: (string, seq<string>, seq<Row>) -> Option<string>,
                            rule: (string, seq<Row>) -> string,
                            chart: (seq<Row>, seq<string>) -> seq<Series>)
    requires Dispatch(req, df, llm, rule, chart).Success?
    ensures var p := Dispatch(req, df, llm, rule, chart).payload;
            var text := llm(p.query, p.areas, p.table);
            && (text.Some? && text.value != "" ==> p.summary == text.value)
            && (text.None? || text.value == "" ==>
                  exists parts: seq<string> ::
                    && |parts| == |p.areas|
                    && (forall i :: 0 <= i < |parts| ==>
                          parts[i] == rule(p.areas[i], Filtered(p.table, [p.areas[i]])))
                    && p.summary == Join(parts, " "))
    ensures var p := Dispatch(req, df, llm, rule, chart).payload;
            forall i :: 0 <= i < |p.areas| ==>
              forall row :: row in Filtered(p.table, [p.areas[i]]) <==>
                row in df.rows && AreaOf(row) == Some(p.areas[i])
  {
    DispatchSuccess(req, df, llm, rule, chart);
    var p := Dispatch(req, df, llm, rule, chart).payload;
    var parts := RuleParts(p.areas, p.table, rule);
    assert forall i :: 0 <= i < |parts| ==> parts[i] == rule(p.areas[i], Filtered(p.table, [p.areas[i]]));
  }
}
