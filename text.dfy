/**
 * Shared vocabulary: an Option type and the few string and list operations
 * (join, split, substring test, ASCII lower-casing, order-preserving
 * de-duplication) that the frontend and the backend both rely on.
 */
module Wrappers {
  datatype Option<+T> = None | Some(value: T)
}

module Text {

  /** True when `s` contains no occurrence of the character `c`. */
  predicate Free(s: string, c: char)
  {
    c !in s
  }

  /** `parts` joined with `sep` between consecutive elements
      (JavaScript `Array.prototype.join`, Python `str.join`). */
  function Join(parts: seq<string>, sep: string): (r: string)
    ensures |parts| == 1 ==> r == parts[0]
    ensures parts == [] ==> r == ""
  {
    if |parts| == 0 then ""
    else if |parts| == 1 then parts[0]
    else parts[0] + sep + Join(parts[1..], sep)
  }

  /** A join of at least two parts is the first part, the separator and the
      join of the rest. */
  lemma JoinFirst(parts: seq<string>, sep: string)
    requires |parts| >= 2
    ensures Join(parts, sep) == parts[0] + (sep + Join(parts[1..], sep))
  {
  }

  /** The first element of a non-empty sequence is one of its elements. */
  lemma HeadIn<T>(xs: seq<T>)
    ensures xs != [] ==> xs[0] in xs
  {
  }

  lemma Assoc(a: string, b: string, c: string)
    ensures a + b + c == a + (b + c)
  {
  }

  lemma Regroup(a: string, b: string, c: string, d: string)
    ensures a + b + c + d == a + (b + (c + d))
  {
  }

  /** Splits `s` at every occurrence of `c`; the inverse of joining with `[c]`. */
  function Split(s: string, c: char): (r: seq<string>)
    ensures |r| >= 1
    ensures forall i :: 0 <= i < |r| ==> Free(r[i], c)
    decreases |s|
  {
    if c in s then
      var k := IndexOf(s, c);
      [s[..k]] + Split(s[k + 1..], c)
    else
      [s]
  }

  /** Index of the first occurrence of `c` in `s`. */
  function IndexOf(s: string, c: char): (k: nat)
    requires c in s
    ensures k < |s| && s[k] == c && Free(s[..k], c)
  {
    if s[0] == c then 0 else 1 + IndexOf(s[1..], c)
  }

  /** Splitting a join undoes it, provided no part contains the separator. */
  lemma {:induction false} SplitJoin(parts: seq<string>, c: char)
    requires |parts| >= 1
    requires forall i :: 0 <= i < |parts| ==> Free(parts[i], c)
    ensures Split(Join(parts, [c]), c) == parts
  {
    if |parts| == 1 {
      assert Free(parts[0], c);
    } else {
      var s := Join(parts, [c]);
      var rest := Join(parts[1..], [c]);
      assert s == parts[0] + [c] + rest;
      assert Free(parts[0], c);
      IndexAfterFreePrefix(parts[0], c, rest);
      assert s[..|parts[0]|] == parts[0];
      assert s[|parts[0]| + 1..] == rest;
      SplitJoin(parts[1..], c);
    }
  }

  lemma {:induction false} IndexAfterFreePrefix(p: string, c: char, rest: string)
    requires Free(p, c)
    ensures c in p + [c] + rest && IndexOf(p + [c] + rest, c) == |p|
    decreases |p|
  {
    var s := p + [c] + rest;
    assert s[|p|] == c;
    if p != [] {
      assert s[0] == p[0] && p[0] != c;
      assert s[1..] == p[1..] + [c] + rest;
      IndexAfterFreePrefix(p[1..], c, rest);
    }
  }

  /** Python's `sub in s` / JavaScript's `s.includes(sub)` for strings. */
  predicate IsInfix(sub: string, s: string)
    decreases |s|
  {
    sub <= s || (|s| > 0 && IsInfix(sub, s[1..]))
  }

  /** `sub` occurs in `s` starting at position `i`. */
  predicate OccursAt(sub: string, s: string, i: int)
  {
    0 <= i <= |s| - |sub| && s[i..i + |sub|] == sub
  }

  /** `IsInfix` agrees with "some slice of `s` equals `sub`". */
  lemma IsInfixAt(sub: string, s: string)
    ensures IsInfix(sub, s) <==> exists i :: OccursAt(sub, s, i)
  {
    if IsInfix(sub, s) {
      InfixOccurs(sub, s);
    }
    if exists i :: OccursAt(sub, s, i) {
      var i :| OccursAt(sub, s, i);
      OccursInfix(sub, s, i);
    }
  }

  lemma {:induction false} InfixOccurs(sub: string, s: string)
    requires IsInfix(sub, s)
    ensures exists i :: OccursAt(sub, s, i)
    decreases |s|
  {
    if sub <= s {
      assert OccursAt(sub, s, 0);
    } else {
      InfixOccurs(sub, s[1..]);
      var i :| OccursAt(sub, s[1..], i);
      assert s[i + 1..i + 1 + |sub|] == s[1..][i..i + |sub|];
      assert OccursAt(sub, s, i + 1);
    }
  }

  lemma {:induction false} OccursInfix(sub: string, s: string, i: int)
    requires OccursAt(sub, s, i)
    ensures IsInfix(sub, s)
    decreases i
  {
    if i == 0 {
      assert s[..|sub|] == sub;
    } else {
      assert s[1..][i - 1..i - 1 + |sub|] == s[i..i + |sub|];
      OccursInfix(sub, s[1..], i - 1);
    }
  }

  /** ASCII lower-casing of one character. */
  function LowerChar(c: char): (d: char)
    ensures 'A' <= c <= 'Z' ==> 'a' <= d <= 'z'
    ensures !('A' <= c <= 'Z') ==> d == c
  {
    if 'A' <= c <= 'Z' then (c as int - 'A' as int + 'a' as int) as char else c
  }

  /** ASCII lower-casing of a string (Python `str.lower`, restricted to ASCII). */
  function Lower(s: string): (r: string)
    ensures |r| == |s|
    ensures forall i :: 0 <= i < |s| ==> r[i] == LowerChar(s[i])
  {
    if s == [] then [] else [LowerChar(s[0])] + Lower(s[1..])
  }

  /** No element occurs twice. */
  predicate NoDuplicates<T(==)>(xs: seq<T>)
  {
    forall i, j :: 0 <= i < j < |xs| ==> xs[i] != xs[j]
  }

  /** Position of the first occurrence of `x` in `xs`. */
  function FirstIndex<T(==)>(xs: seq<T>, x: T): (k: nat)
    requires x in xs
    ensures k < |xs| && xs[k] == x && x !in xs[..k]
  {
    if xs[0] == x then 0 else 1 + FirstIndex(xs[1..], x)
  }

  /** `list(dict.fromkeys(xs))`: walks `xs` from the left and keeps an element
      only when it has not been kept before. */
  function Dedupe<T(==)>(xs: seq<T>): (r: seq<T>)
    decreases |xs|
  {
    if xs == [] then []
    else
      var kept := Dedupe(xs[..|xs| - 1]);
      if xs[|xs| - 1] in kept then kept else kept + [xs[|xs| - 1]]
  }

  /** De-duplication keeps every element, adds none, repeats none, and lists the
      elements in the order of their first occurrence. */
  lemma DedupeSpec<T>(xs: seq<T>)
    ensures forall x :: x in Dedupe(xs) <==> x in xs
    ensures NoDuplicates(Dedupe(xs))
    ensures forall i, j :: 0 <= i < j < |Dedupe(xs)| ==>
              FirstIndex(xs, Dedupe(xs)[i]) < FirstIndex(xs, Dedupe(xs)[j])
  {
    forall x ensures x in Dedupe(xs) <==> x in xs {
      DedupeMember(xs, x);
    }
    DedupeDistinct(xs);
    DedupeOrder(xs);
  }

  /** De-duplication repeats no element. */
  lemma {:induction false} DedupeDistinct<T>(xs: seq<T>)
    ensures NoDuplicates(Dedupe(xs))
    decreases |xs|
  {
    if xs != [] {
      DedupeDistinct(xs[..|xs| - 1]);
    }
  }

  /** `a` and `b` occur in `xs`, and `a` occurs first. */
  predicate Earlier<T(==)>(xs: seq<T>, a: T, b: T)
  {
    a in xs && b in xs && FirstIndex(xs, a) < FirstIndex(xs, b)
  }

  /** De-duplication lists elements in the order of their first occurrence. */
  lemma {:induction false} DedupeOrder<T>(xs: seq<T>)
    ensures forall i, j :: 0 <= i < j < |Dedupe(xs)| ==> Earlier(xs, Dedupe(xs)[i], Dedupe(xs)[j])
    decreases |xs|
  {
    if xs != [] {
      var init := xs[..|xs| - 1];
      var last := xs[|xs| - 1];
      assert xs == init + [last];
      DedupeOrder(init);
      var kept := Dedupe(init);
      if last in kept {
        assert Dedupe(xs) == kept;
        forall i, j | 0 <= i < j < |kept|
          ensures Earlier(xs, kept[i], kept[j])
        {
          KeptFirstIndex(init, last, kept[i]);
          KeptFirstIndex(init, last, kept[j]);
        }
      } else {
        var r := kept + [last];
        assert Dedupe(xs) == r;
        DedupeMember(init, last);
        assert FirstIndex(xs, last) == |xs| - 1;
        forall i, j | 0 <= i < j < |r|
          ensures Earlier(xs, r[i], r[j])
        {
          assert r[i] == kept[i];
          KeptFirstIndex(init, last, kept[i]);
          if j < |r| - 1 {
            assert r[j] == kept[j];
            KeptFirstIndex(init, last, kept[j]);
          }
        }
      }
    }
  }

  /** A kept element of `init` has the same first index in `init + [last]`. */
  lemma KeptFirstIndex<T>(init: seq<T>, last: T, x: T)
    requires x in Dedupe(init)
    ensures x in init && FirstIndex(init + [last], x) == FirstIndex(init, x)
  {
    DedupeMember(init, x);
    FirstIndexPrefix(init, [last], x);
  }

  /** De-duplication keeps exactly the elements of its input. */
  lemma {:induction false} DedupeMember<T>(xs: seq<T>, y: T)
    ensures y in Dedupe(xs) <==> y in xs
    decreases |xs|
  {
    if xs != [] {
      var init := xs[..|xs| - 1];
      assert xs == init + [xs[|xs| - 1]];
      DedupeMember(init, y);
    }
  }

  lemma {:induction false} FirstIndexPrefix<T>(xs: seq<T>, ys: seq<T>, x: T)
    requires x in xs
    ensures FirstIndex(xs + ys, x) == FirstIndex(xs, x)
    decreases |xs|
  {
    if xs[0] != x {
      assert (xs + ys)[1..] == xs[1..] + ys;
      FirstIndexPrefix(xs[1..], ys, x);
    }
  }

  /** A list without repetitions is left unchanged by de-duplication. */
  lemma {:induction false} DedupeNoDuplicates<T>(xs: seq<T>)
    requires NoDuplicates(xs)
    ensures Dedupe(xs) == xs
    decreases |xs|
  {
    if xs != [] {
      var init := xs[..|xs| - 1];
      assert NoDuplicates(init);
      DedupeNoDuplicates(init);
      DedupeSpec(init);
      assert xs[|xs| - 1] !in init;
      assert xs == init + [xs[|xs| - 1]];
    }
  }
}
