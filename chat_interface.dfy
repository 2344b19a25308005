/**
 * The query form: a text input held in the `value` state cell, ten template
 * pills that overwrite it, and the submit guard that forwards the trimmed
 * text unless it is blank or a request is already in flight.
 */
module ChatInterface {
  import opened Wrappers

  /** The characters `String.prototype.trim` removes: the ECMAScript
      WhiteSpace and LineTerminator code points. */
  predicate IsSpace(c: char)
  {
    c == '\t' || c == '\n' || c == '\U{000B}' || c == '\U{000C}' || c == '\r' ||
    c == ' ' || c == '\U{00A0}' || c == '\U{1680}' || '\U{2000}' <= c <= '\U{200A}' ||
    c == '\U{2028}' || c == '\U{2029}' || c == '\U{202F}' || c == '\U{205F}' ||
    c == '\U{3000}' || c == '\U{FEFF}'
  }

  predicate Blank(s: string)
  {
    forall k :: 0 <= k < |s| ==> IsSpace(s[k])
  }

  /** Number of leading white-space characters. */
  function LeadingSpaces(s: string): (n: nat)
    ensures n <= |s|
    ensures Blank(s[..n])
    ensures n < |s| ==> !IsSpace(s[n])
  {
    if s != [] && IsSpace(s[0]) then
      var n := 1 + LeadingSpaces(s[1..]);
      assert s[..n] == [s[0]] + s[1..][..n - 1];
      n
    else 0
  }

  /** Number of trailing white-space characters. */
  function TrailingSpaces(s: string): (n: nat)
    ensures n <= |s|
    ensures Blank(s[|s| - n..])
    ensures n < |s| ==> !IsSpace(s[|s| - n - 1])
  {
    if s != [] && IsSpace(s[|s| - 1]) then
      var n := 1 + TrailingSpaces(s[..|s| - 1]);
      assert s[|s| - n..] == s[..|s| - 1][|s| - n..] + [s[|s| - 1]];
      n
    else 0
  }

  /** `s.trim()`. */
  function Trim(s: string): (r: string)
  {
    var i := LeadingSpaces(s);
    var j := if i == |s| then 0 else TrailingSpaces(s);
    s[i..|s| - j]
  }

  /** Trimming removes exactly the white space at both ends: the result is a
      slice of the input, everything cut away is white space, and the result
      neither starts nor ends with white space. It is empty exactly when the
      input is blank. */
  lemma TrimSpec(s: string)
    ensures Trim(s) == [] <==> Blank(s)
    ensures Trim(s) != [] ==> !IsSpace(Trim(s)[0]) && !IsSpace(Trim(s)[|Trim(s)| - 1])
    ensures exists i :: 0 <= i <= |s| - |Trim(s)| && s[i..i + |Trim(s)|] == Trim(s) &&
              Blank(s[..i]) && Blank(s[i + |Trim(s)|..])
  {
    var i := LeadingSpaces(s);
    if i == |s| {
      assert s[..i] == s;
      assert s[i..] == [];
    } else {
      var j := TrailingSpaces(s);
      assert !IsSpace(s[i]);
      BlankSuffix(s, j);
      assert j < |s| - i;
      assert Trim(s) == s[i..|s| - j];
      assert s[i + |Trim(s)|..] == s[|s| - j..];
      assert !Blank(s) by { assert !IsSpace(s[i]); }
    }
  }

  lemma BlankSuffix(s: string, j: nat)
    requires j <= |s| && Blank(s[|s| - j..])
    ensures forall k :: |s| - j <= k < |s| ==> IsSpace(s[k])
  {
    forall k | |s| - j <= k < |s| ensures IsSpace(s[k]) {
      assert s[k] == s[|s| - j..][k - (|s| - j)];
    }
  }

  /** `handleSubmit`: the text passed to `onSubmit`, or `None` when the input
      is blank or a request is in flight and nothing is submitted. */
  function Submit(value: string, loading: bool): (sent: Option<string>)
    ensures sent.None? <==> Blank(value) || loading
    ensures sent.Some? ==> sent.value == Trim(value) && sent.value != []
    ensures sent.Some? ==> !IsSpace(sent.value[0]) && !IsSpace(sent.value[|sent.value| - 1])
  {
    TrimSpec(value);
    if Trim(value) == [] || loading then None else Some(Trim(value))
  }

  /** The strings the template pills put into the input. The longer ones
      are written as two literals joined at a word boundary; the text is the
      same, and the split lets the verifier reach their first characters. */
  const Templates: seq<string> := [
    "Give me analysis of Wakad",
    "Give me analysis of Akurdi",
    "Give me analysis of Ambegaon Budruk",
    "Give me analysis of Aundh",
    "Compare Ambegaon Budruk " + "and Aundh demand trends",
    "Compare Wakad and Aundh " + "price trends from 2020 to 2024",
    "Compare price and demand " + "for Wakad, Aundh and Akurdi",
    "Which locality has higher demand " + "between Ambegaon Budruk and Wakad?",
    "Show 5-year price trend for Akurdi",
    "Show price growth for Ambegaon " + "Budruk over the last 3 years"
  ]

  /** A string without white space at either end trims to itself. */
  lemma TrimUnpadded(s: string)
    requires s != [] && !IsSpace(s[0]) && !IsSpace(s[|s| - 1])
    ensures Trim(s) == s
  {
    assert LeadingSpaces(s) == 0;
    assert TrailingSpaces(s) == 0;
    assert s[0..|s|] == s;
  }

  /** Submitting a template while idle sends exactly the template text. */
  lemma TemplatesSubmitVerbatim(k: nat)
    requires k < |Templates|
    ensures Submit(Templates[k], false) == Some(Templates[k])
  {
    var t := Templates[k];
    if k == 0 {
      assert t[0] == 'G' && t[|t| - 1] == 'd';
    } else if k == 1 {
      assert t[0] == 'G' && t[|t| - 1] == 'i';
    } else if k == 2 {
      assert t[0] == 'G' && t[|t| - 1] == 'k';
    } else if k == 3 {
      assert t[0] == 'G' && t[|t| - 1] == 'h';
    } else if k == 4 {
      assert t[0] == 'C' && t[|t| - 1] == 's';
    } else if k == 5 {
      assert t[0] == 'C' && t[|t| - 1] == '4';
    } else if k == 6 {
      assert t[0] == 'C' && t[|t| - 1] == 'i';
    } else if k == 7 {
      assert t[0] == 'W' && t[|t| - 1] == '?';
    } else if k == 8 {
      assert t[0] == 'S' && t[|t| - 1] == 'i';
    } else {
      assert t[0] == 'S' && t[|t| - 1] == 's';
    }
    TrimUnpadded(t);
  }

  /** The input box and its `value` state cell. */
  class Form {
    var value: string

    constructor ()
      ensures value == ""
    {
      value := "";
    }

    /** Typing into the input (`onChange`). */
    method Edit(v: string)
      modifies this
      ensures value == v
    {
      value := v;
    }

    /** Clicking a template pill: the input takes the template's text and
        nothing is submitted. */
    method PickTemplate(k: nat)
      requires k < |Templates|
      modifies this
      ensures value == Templates[k]
      ensures Submit(value, false) == Some(value)
    {
      value := Templates[k];
      TemplatesSubmitVerbatim(k);
    }
  }
}
