/**
 * The application shell: the three state cells `data`, `loading` and `error`,
 * and `handleQuery`, which sets them when a query starts and again when its
 * request settles.
 *
 * `handleQuery` is modelled as its two synchronous halves. `Start` is the
 * code before the `await`; `Complete` is the code after the request settles,
 * with the request's outcome as a parameter. The network call itself is not
 * modelled.
 */
module App {
  import opened Wrappers
  import opened Insight
  import ChatInterface
  import ResultPanel

  /** How the request settled. `Ok` is a 2xx response whose body parsed.
      `NotOk` is any other status; it carries the truthy string form of the
      body's `error` field, or `None` when the field is missing, falsy, or the
      body did not parse. `Threw` is a rejected `fetch` or a 2xx body that did
      not parse; it carries the thrown value's `message` (`""` if it has
      none). */
  datatype Outcome =
    | Ok(body: Payload)
    | NotOk(errorField: Option<string>)
    | Threw(message: string)

  /** The three state cells. */
  datatype Cells = Cells(data: Option<Payload>, loading: bool, error: string)

  /** `useState(null)`, `useState(false)`, `useState("")`. */
  const Initial := Cells(None, false, "")

  /** A payload is never on screen together with an error message, and no
      error message is left standing while a request is in flight. */
  predicate Consistent(c: Cells)
  {
    (c.data.Some? ==> c.error == "") && (c.loading ==> c.error == "")
  }

  /** Before the `await`: `setLoading(true); setError("")`. */
  function Started(c: Cells): Cells
  {
    c.(loading := true, error := "")
  }

  /** The message of the `Error` thrown for a non-ok response:
      `err.error || "Server error"`. */
  function ServerMessage(errorField: Option<string>): string
  {
    if errorField.Some? && errorField.value != "" then errorField.value else "Server error"
  }

  /** The message the `catch` block shows: `e.message || "Unable to connect to server"`. */
  function CaughtMessage(message: string): string
  {
    if message != "" then message else "Unable to connect to server"
  }

  /** After the request settles: the `try`, `catch` and `finally` blocks. */
  function Completed(c: Cells, o: Outcome): Cells
  {
    match o
    case Ok(body) => Cells(Some(body), false, c.error)
    case NotOk(field) => Cells(None, false, CaughtMessage(ServerMessage(field)))
    case Threw(message) => Cells(None, false, CaughtMessage(message))
  }

  /** The initial state is consistent; starting a query keeps the payload on
      screen and leaves a consistent state; so does completing it. */
  lemma TransitionsKeepConsistent(c: Cells, o: Outcome)
    ensures Consistent(Initial)
    ensures Consistent(c) ==> Consistent(Started(c)) && Started(c).data == c.data
    ensures Consistent(c) && c.loading ==> Consistent(Completed(c, o))
  {
  }

  /** Once a started query completes, nothing is loading, and exactly one of
      "a payload is present" and "an error message is shown" holds: the
      payload when the request succeeded, the message when it failed. */
  lemma CompletionSettles(c: Cells, o: Outcome)
    requires Consistent(c) && c.loading
    ensures !Completed(c, o).loading
    ensures Completed(c, o).data.Some? <==> Completed(c, o).error == ""
    ensures Completed(c, o).data.Some? <==> o.Ok?
  {
  }

  /** What the user reads after a failure. A non-ok response shows the body's
      `error` field when it is a non-empty string, else "Server error"; the
      transport fallback never appears for it. A thrown failure shows its own
      message, or "Unable to connect to server" when that is empty. */
  lemma FailureMessages(c: Cells, field: Option<string>, message: string)
    ensures Completed(c, NotOk(field)).error ==
            (if field.Some? && field.value != "" then field.value else "Server error")
    ensures Completed(c, Threw(message)).error ==
            (if message == "" then "Unable to connect to server" else message)
    ensures Completed(c, NotOk(None)).error == "Server error"
  {
  }

  // ---------------------------------------------------------------------------
  // The cells as the component holds them

  class Shell {
    var data: Option<Payload>
    var loading: bool
    var error: string

    function State(): Cells
      reads this
    {
      Cells(data, loading, error)
    }

    ghost predicate Valid()
      reads this
    {
      Consistent(State())
    }

    constructor ()
      ensures Valid() && State() == Initial
    {
      data, loading, error := None, false, "";
    }

    /** `handleQuery` up to the `await`. */
    method Start()
      requires Valid()
      modifies this
      ensures Valid() && State() == Started(old(State()))
    {
      loading := true;
      error := "";
    }

    /** `handleQuery` after the request settles. */
    method Complete(o: Outcome)
      requires Valid() && loading
      modifies this
      ensures Valid() && State() == Completed(old(State()), o)
    {
      match o {
        case Ok(body) =>
          data := Some(body);
        case NotOk(field) =>
          var message := ServerMessage(field);
          error := CaughtMessage(message);
          data := None;
        case Threw(message) =>
          error := CaughtMessage(message);
          data := None;
      }
      loading := false;
    }
  }

  // ---------------------------------------------------------------------------
  // The whole page: the form, the guard, the cells and the requests in flight

  /** What can happen on the page: typing, pressing "Generate Insights", or
      the pending request settling. */
  datatype Event = Type(text: string) | Press | Settle(outcome: Outcome)

  /** The form's `value`, the cells, and the number of requests issued and
      not yet settled. */
  datatype Page = Page(value: string, cells: Cells, inFlight: nat)

  const Opened := Page("", Initial, 0)

  function Step(p: Page, e: Event): Page
  {
    match e
    case Type(text) => p.(value := text)
    case Press =>
      if ChatInterface.Submit(p.value, p.cells.loading).None? then p
      else p.(cells := Started(p.cells), inFlight := p.inFlight + 1)
    case Settle(o) =>
      if p.inFlight == 0 then p
      else p.(cells := Completed(p.cells, o), inFlight := p.inFlight - 1)
  }

  function Run(p: Page, events: seq<Event>): Page
    decreases |events|
  {
    if events == [] then p else Run(Step(p, events[0]), events[1..])
  }

  /** At most one request is ever in flight, `loading` says exactly whether
      one is, and the cells stay consistent. */
  predicate PageInvariant(p: Page)
  {
    Consistent(p.cells) && p.inFlight == (if p.cells.loading then 1 else 0)
  }

  lemma StepKeepsInvariant(p: Page, e: Event)
    requires PageInvariant(p)
    ensures PageInvariant(Step(p, e))
  {
    TransitionsKeepConsistent(p.cells, if e.Settle? then e.outcome else NotOk(None));
  }

  /** Every page reachable from the opened page satisfies the invariant. */
  lemma {:induction false} RunKeepsInvariant(p: Page, events: seq<Event>)
    requires PageInvariant(p)
    ensures PageInvariant(Run(p, events))
    decreases |events|
  {
    if events != [] {
      StepKeepsInvariant(p, events[0]);
      RunKeepsInvariant(Step(p, events[0]), events[1..]);
    }
  }

  lemma Reachable(events: seq<Event>)
    ensures PageInvariant(Run(Opened, events))
    ensures Run(Opened, events).inFlight <= 1
  {
    RunKeepsInvariant(Opened, events);
  }

  /** Pressing twice before the first request settles issues one request:
      the second press finds `loading` set and does nothing. */
  lemma DoublePressIssuesOneRequest(p: Page)
    requires PageInvariant(p)
    ensures Step(Step(p, Press), Press).inFlight <= 1
    ensures Step(p, Press).cells.loading ==> Step(Step(p, Press), Press) == Step(p, Press)
  {
    StepKeepsInvariant(p, Press);
  }

  /** A press with blank input, or while loading, changes nothing. */
  lemma IgnoredPress(p: Page)
    requires ChatInterface.Blank(p.value) || p.cells.loading
    ensures Step(p, Press) == p
  {
  }

  /** While a request is in flight the panel shows the loader if there is no
      payload yet, and otherwise keeps showing the previous payload. */
  lemma ViewWhileLoading(p: Page)
    requires PageInvariant(p) && p.inFlight == 1
    ensures var v := ResultPanel.SelectView(p.cells.data, p.cells.loading, p.cells.error);
            if p.cells.data.None? then v == ResultPanel.Loader
            else v == ResultPanel.Results(p.cells.data.value)
  {
  }

  /** When the request settles the panel shows the payload for a success and
      only the error text for a failure. */
  lemma ViewAfterSettle(p: Page, o: Outcome)
    requires PageInvariant(p) && p.inFlight == 1
    ensures var c := Step(p, Settle(o)).cells;
            var v := ResultPanel.SelectView(c.data, c.loading, c.error);
            match o
            case Ok(body) => v == ResultPanel.Results(body)
            case NotOk(field) => v == ResultPanel.ErrorText(ServerMessage(field))
            case Threw(message) => v == ResultPanel.ErrorText(CaughtMessage(message))
  {
  }
}
