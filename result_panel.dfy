/**
 * The right-hand panel: which of the four displays (loader, error text,
 * "no insights yet" prompt, or the insight payload) is shown for the current
 * `data`, `loading` and `error`, and the localities line of the payload.
 */
module ResultPanel {
  import opened Wrappers
  import opened Text
  import opened Insight

  datatype View = Loader | ErrorText(text: string) | NoInsights | Results(payload: Payload)

  /** The early-return chain of the panel. Each display is characterised on
      its own, without reference to the order of the checks. */
  function SelectView(data: Option<Payload>, loading: bool, error: string): (v: View)
    ensures v == Loader <==> loading && data.None?
    ensures v.ErrorText? <==> error != "" && (data.Some? || !loading)
    ensures v.ErrorText? ==> v.text == error
    ensures v == NoInsights <==> data.None? && !loading && error == ""
    ensures v.Results? <==> data.Some? && error == ""
    ensures v.Results? ==> v.payload == data.value
  {
    if loading && data.None? then Loader
    else if error != "" then ErrorText(error)
    else if data.None? then NoInsights
    else Results(data.value)
  }

  /** `data.areas.join(", ")`. */
  function LocalitiesLine(areas: seq<string>): string
  {
    Join(areas, ", ")
  }

  /** The areas after the first, each with the space that follows a comma. */
  function Spaced(areas: seq<string>): (r: seq<string>)
    ensures |r| == |areas|
    ensures forall i :: 0 <= i < |areas| ==> r[i] == " " + areas[i]
  {
    seq(|areas|, i requires 0 <= i < |areas| => " " + areas[i])
  }

  lemma {:induction false} JoinCommaSpace(areas: seq<string>)
    requires |areas| >= 1
    ensures Join(areas, ", ") == Join([areas[0]] + Spaced(areas[1..]), ",")
    decreases |areas|
  {
    if |areas| >= 2 {
      JoinCommaSpace(areas[1..]);
      var s2 := Spaced(areas[2..]);
      assert areas[1..][1..] == areas[2..];
      assert Spaced(areas[1..]) == [" " + areas[1]] + s2;
      PrefixFirst(" ", areas[1], s2);
      var parts := [areas[0]] + Spaced(areas[1..]);
      assert parts[1..] == Spaced(areas[1..]);
      JoinFirst(areas, ", ");
      JoinFirst(parts, ",");
      CommaSpace(Join(areas[1..], ", "));
    }
  }

  lemma CommaSpace(x: string)
    ensures ", " + x == "," + (" " + x)
  {
  }

  /** Prefixing a join prefixes its first part. */
  lemma PrefixFirst(p: string, first: string, rest: seq<string>)
    ensures Join([p + first] + rest, ",") == p + Join([first] + rest, ",")
  {
    if rest != [] {
      assert ([p + first] + rest)[1..] == rest;
      assert ([first] + rest)[1..] == rest;
    }
  }

  /** Cutting the localities line at its commas gives back the first area and
      then every further area behind its separating space, provided no area
      name contains a comma. */
  lemma LocalitiesLineSplits(areas: seq<string>)
    requires |areas| >= 1
    requires forall i :: 0 <= i < |areas| ==> Free(areas[i], ',')
    ensures Split(LocalitiesLine(areas), ',') == [areas[0]] + Spaced(areas[1..])
  {
    JoinCommaSpace(areas);
    var parts := [areas[0]] + Spaced(areas[1..]);
    forall i | 0 <= i < |parts| ensures Free(parts[i], ',') {
      if i > 0 {
        assert parts[i] == " " + areas[i];
        assert Free(areas[i], ',');
      }
    }
    SplitJoin(parts, ',');
  }
}
