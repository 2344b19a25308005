/**
 * Backend helpers: finding the localities a free-text query mentions, and
 * naming the direction of a price trend from its growth percentage.
 */
module Utils {
  import opened Text

  // ---------------------------------------------------------------------------
  // Words of the query: `text.replace(",", " ").split()`

  /** The characters Python's `str.split()` treats as white space. */
  predicate IsPySpace(c: char)
  {
    c == ' ' || '\t' <= c <= '\r' || '\U{001C}' <= c <= '\U{001F}' ||
    c == '\U{0085}' || c == '\U{00A0}' || c == '\U{1680}' ||
    '\U{2000}' <= c <= '\U{200A}' || c == '\U{2028}' || c == '\U{2029}' ||
    c == '\U{202F}' || c == '\U{205F}' || c == '\U{3000}'
  }

  predicate SpaceFree(s: string)
  {
    forall k :: 0 <= k < |s| ==> !IsPySpace(s[k])
  }

  /** `s.replace(",", " ")`. */
  function CommasToSpaces(s: string): (r: string)
    ensures |r| == |s|
    ensures forall k :: 0 <= k < |s| ==> r[k] == (if s[k] == ',' then ' ' else s[k])
  {
    if s == [] then [] else [if s[0] == ',' then ' ' else s[0]] + CommasToSpaces(s[1..])
  }

  /** Length of the word at the start of `s`. */
  function WordLength(s: string): (n: nat)
    requires s != [] && !IsPySpace(s[0])
    ensures 0 < n <= |s| && SpaceFree(s[..n])
    ensures n < |s| ==> IsPySpace(s[n])
  {
    if |s| == 1 || IsPySpace(s[1]) then 1
    else
      var n := 1 + WordLength(s[1..]);
      assert s[..n] == [s[0]] + s[1..][..n - 1];
      n
  }

  /** `s.split()`: the maximal runs of non-white-space characters. */
  function Words(s: string): (ws: seq<string>)
    ensures forall i :: 0 <= i < |ws| ==> ws[i] != [] && SpaceFree(ws[i])
    decreases |s|
  {
    if s == [] then []
    else if IsPySpace(s[0]) then Words(s[1..])
    else
      var n := WordLength(s);
      [s[..n]] + Words(s[n..])
  }

  /** Splitting words joined by single spaces gives back the words. */
  lemma {:induction false} WordsJoin(ws: seq<string>)
    requires forall i :: 0 <= i < |ws| ==> ws[i] != [] && SpaceFree(ws[i])
    ensures Words(Join(ws, " ")) == ws
    decreases |ws|
  {
    if |ws| == 1 {
      WordsSingle(ws[0]);
    } else if |ws| > 1 {
      JoinFirst(ws, " ");
      WordsJoin(ws[1..]);
      WordsCons(ws[0], Join(ws[1..], " "));
      assert ws == [ws[0]] + ws[1..];
    }
  }

  /** A single word splits into itself. */
  lemma WordsSingle(w: string)
    requires w != [] && SpaceFree(w)
    ensures Words(w) == [w]
  {
    assert WordLength(w) == |w|;
    assert w[..|w|] == w;
    assert w[|w|..] == [];
  }

  /** A word followed by a space: the word comes first, then the words of
      what follows the space. */
  lemma WordsCons(w: string, rest: string)
    requires w != [] && SpaceFree(w)
    ensures Words(w + (" " + rest)) == [w] + Words(rest)
  {
    var t := " " + rest;
    var s := w + t;
    assert s[0] == w[0];
    WordLengthOfPrefix(w, t);
    assert s[..|w|] == w;
    assert s[|w|..] == t;
    assert t[1..] == rest;
  }

  lemma {:induction false} WordLengthOfPrefix(w: string, rest: string)
    requires w != [] && SpaceFree(w) && rest != [] && IsPySpace(rest[0])
    ensures WordLength(w + rest) == |w|
    decreases |w|
  {
    var s := w + rest;
    if |w| > 1 {
      assert s[1..] == w[1..] + rest;
      WordLengthOfPrefix(w[1..], rest);
    }
  }

  /** `[w for w in words if len(w) > 2]`. */
  function LongOnly(ws: seq<string>): (r: seq<string>)
    ensures forall i :: 0 <= i < |r| ==> |r[i]| > 2
    ensures forall w :: w in r <==> w in ws && |w| > 2
  {
    if ws == [] then []
    else (if |ws[0]| > 2 then [ws[0]] else []) + LongOnly(ws[1..])
  }

  /** The fallback's search words for a lower-cased query. */
  function LongWords(text: string): seq<string>
  {
    LongOnly(Words(CommasToSpaces(text)))
  }

  // ---------------------------------------------------------------------------
  // `extract_areas_from_query`

  /** The names whose lower-cased form occurs in `text`, in `areas` order. */
  function NamesIn(text: string, areas: seq<string>): seq<string>
  {
    if areas == [] then []
    else
      var last := areas[|areas| - 1];
      NamesIn(text, areas[..|areas| - 1]) + (if IsInfix(Lower(last), text) then [last] else [])
  }

  /** The names whose lower-cased form contains `w`, in `areas` order. */
  function NamesContaining(w: string, areas: seq<string>): seq<string>
  {
    if areas == [] then []
    else
      var last := areas[|areas| - 1];
      NamesContaining(w, areas[..|areas| - 1]) + (if IsInfix(w, Lower(last)) then [last] else [])
  }

  /** Some word of `words` occurs in the lower-cased `name`. */
  ghost predicate SomeWordIn(words: seq<string>, name: string)
  {
    exists i :: 0 <= i < |words| && IsInfix(words[i], Lower(name))
  }

  /** The fallback candidates: word-major, then `areas` order. */
  function FallbackNames(words: seq<string>, areas: seq<string>): seq<string>
  {
    if words == [] then []
    else FallbackNames(words[..|words| - 1], areas) + NamesContaining(words[|words| - 1], areas)
  }

  /** A name is a direct match iff it is given and occurs in the text. */
  lemma {:induction false} NamesInMembers(text: string, areas: seq<string>, a: string)
    ensures a in NamesIn(text, areas) <==> a in areas && IsInfix(Lower(a), text)
    decreases |areas|
  {
    if areas != [] {
      var init := areas[..|areas| - 1];
      assert areas == init + [areas[|areas| - 1]];
      NamesInMembers(text, init, a);
    }
  }

  /** A name is collected for `w` iff it is given and contains `w`. */
  lemma {:induction false} NamesContainingMembers(w: string, areas: seq<string>, a: string)
    ensures a in NamesContaining(w, areas) <==> a in areas && IsInfix(w, Lower(a))
    decreases |areas|
  {
    if areas != [] {
      var init := areas[..|areas| - 1];
      assert areas == init + [areas[|areas| - 1]];
      NamesContainingMembers(w, init, a);
    }
  }

  /** A name is a fallback candidate iff it is given and some word occurs in it. */
  lemma {:induction false} FallbackNamesMembers(words: seq<string>, areas: seq<string>, a: string)
    ensures a in FallbackNames(words, areas) <==> a in areas && SomeWordIn(words, a)
    decreases |words|
  {
    if words != [] {
      var init := words[..|words| - 1];
      var last := words[|words| - 1];
      FallbackNamesMembers(init, areas, a);
      NamesContainingMembers(last, areas, a);
      if SomeWordIn(init, a) {
        var i :| 0 <= i < |init| && IsInfix(init[i], Lower(a));
        assert words[i] == init[i];
      }
      if IsInfix(last, Lower(a)) {
        assert IsInfix(words[|words| - 1], Lower(a));
      }
      if SomeWordIn(words, a) {
        var i :| 0 <= i < |words| && IsInfix(words[i], Lower(a));
        if i < |init| {
          assert init[i] == words[i];
        }
      }
    }
  }

  /** The result of `extract_areas_from_query`. */
  function MatchedAreas(query: string, areas: seq<string>): seq<string>
  {
    var text := Lower(query);
    var direct := NamesIn(text, areas);
    if direct != [] then Dedupe(direct)
    else Dedupe(FallbackNames(LongWords(text), areas))
  }

  /** `extract_areas_from_query(query, areas)`. */
  method ExtractAreas(query: string, areas: seq<string>) returns (selected: seq<string>)
    ensures selected == MatchedAreas(query, areas)
  {
    var text := Lower(query);
    selected := AreasIn(text, areas);
    if selected != [] {
      return Dedupe(selected);
    }
    selected := AreasForWords(LongWords(text), areas);
    if selected != [] {
      return Dedupe(selected);
    }
    return [];
  }

  /** The fallback loop: for each word, the names containing it. */
  method AreasForWords(words: seq<string>, areas: seq<string>) returns (selected: seq<string>)
    ensures selected == FallbackNames(words, areas)
  {
    selected := [];
    for wi := 0 to |words|
      invariant selected == FallbackNames(words[..wi], areas)
    {
      var found := AreasContaining(words[wi], areas);
      selected := selected + found;
      assert words[..wi + 1][..wi] == words[..wi];
    }
    assert words[..|words|] == words;
  }

  /** The first loop: the names whose lower-cased form occurs in `text`. */
  method AreasIn(text: string, areas: seq<string>) returns (found: seq<string>)
    ensures found == NamesIn(text, areas)
  {
    found := [];
    for i := 0 to |areas|
      invariant found == NamesIn(text, areas[..i])
    {
      var name := areas[i];
      if IsInfix(Lower(name), text) {
        found := found + [name];
      }
      assert areas[..i + 1][..i] == areas[..i];
    }
    assert areas[..|areas|] == areas;
  }

  /** The inner loop of the fallback: the names containing the word `w`. */
  method AreasContaining(w: string, areas: seq<string>) returns (found: seq<string>)
    ensures found == NamesContaining(w, areas)
  {
    found := [];
    for ai := 0 to |areas|
      invariant found == NamesContaining(w, areas[..ai])
    {
      var name := areas[ai];
      if IsInfix(w, Lower(name)) {
        found := found + [name];
      }
      assert areas[..ai + 1][..ai] == areas[..ai];
    }
    assert areas[..|areas|] == areas;
  }

  /** What the matcher returns: no name twice, only given names; the whole
      names the query contains when there are any, and otherwise the names
      that contain one of the query's words longer than two characters. */
  lemma MatchedAreasSpec(query: string, areas: seq<string>)
    ensures var r := MatchedAreas(query, areas);
            && NoDuplicates(r)
            && (forall a :: a in r ==> a in areas)
            && ((exists a :: a in areas && IsInfix(Lower(a), Lower(query))) ==>
                  forall a :: a in r <==> a in areas && IsInfix(Lower(a), Lower(query)))
            && (!(exists a :: a in areas && IsInfix(Lower(a), Lower(query))) ==>
                  forall a :: a in r <==> a in areas && SomeWordIn(LongWords(Lower(query)), a))
  {
    var text := Lower(query);
    var direct := NamesIn(text, areas);
    DedupeSpec(direct);
    DedupeSpec(FallbackNames(LongWords(text), areas));
    forall a ensures a in direct <==> a in areas && IsInfix(Lower(a), text) {
      NamesInMembers(text, areas, a);
    }
    forall a ensures a in FallbackNames(LongWords(text), areas) <==> a in areas && SomeWordIn(LongWords(text), a) {
      FallbackNamesMembers(LongWords(text), areas, a);
    }
    if exists a :: a in areas && IsInfix(Lower(a), text) {
      var a :| a in areas && IsInfix(Lower(a), text);
      assert a in direct;
    } else {
      HeadIn(direct);
    }
  }

  /** The matcher finds nothing exactly when no name occurs in the query and
      no long word of the query occurs in any name. */
  lemma MatchedAreasEmpty(query: string, areas: seq<string>)
    ensures MatchedAreas(query, areas) == [] <==>
            (forall a :: a in areas ==> !IsInfix(Lower(a), Lower(query))) &&
            (forall a :: a in areas ==> !SomeWordIn(LongWords(Lower(query)), a))
  {
    MatchedAreasSpec(query, areas);
    HeadIn(MatchedAreas(query, areas));
  }

  /** When the names are already distinct (as the dataset's unique values
      are) and the query contains some of them, the result is exactly those
      names in their given order. */
  lemma DirectMatchesInOrder(query: string, areas: seq<string>)
    requires NoDuplicates(areas)
    requires NamesIn(Lower(query), areas) != []
    ensures MatchedAreas(query, areas) == NamesIn(Lower(query), areas)
  {
    SubsequenceNoDuplicates(Lower(query), areas);
    DedupeNoDuplicates(NamesIn(Lower(query), areas));
  }

  lemma {:induction false} SubsequenceNoDuplicates(text: string, areas: seq<string>)
    requires NoDuplicates(areas)
    ensures NoDuplicates(NamesIn(text, areas))
    decreases |areas|
  {
    if areas != [] {
      var init := areas[..|areas| - 1];
      var last := areas[|areas| - 1];
      assert NoDuplicates(init);
      SubsequenceNoDuplicates(text, init);
      assert last !in init;
      NamesInMembers(text, init, last);
      assert areas == init + [last];
    }
  }

  // ---------------------------------------------------------------------------
  // The trend label of `build_rule_summary`

  datatype Trend = Upward | Downward | Stable

  /** `"upward"` above 5 percent growth, `"downward"` below -5 percent,
      `"stable"` in between (both bounds included). */
  function TrendOf(growth: real): (t: Trend)
    ensures t == Upward <==> growth > 5.0
    ensures t == Downward <==> growth < -5.0
    ensures t == Stable <==> -5.0 <= growth <= 5.0
  {
    if growth > 5.0 then Upward
    else if growth < -5.0 then Downward
    else Stable
  }

  function Word(t: Trend): string
  {
    match t
    case Upward => "upward"
    case Downward => "downward"
    case Stable => "stable"
  }

  function Rank(t: Trend): int
  {
    match t
    case Downward => -1
    case Stable => 0
    case Upward => 1
  }

  /** More growth never gives a lower trend. */
  lemma TrendMonotone(g1: real, g2: real)
    requires g1 <= g2
    ensures Rank(TrendOf(g1)) <= Rank(TrendOf(g2))
  {
  }
}
