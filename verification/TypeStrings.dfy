/** Strings of bracketed type expressions: depth, weight, stripping, and the two
    splitters of the type generator. */
module TypeStrings {

  predicate IsSpace(c: char) {
    c == ' ' || '\t' <= c <= '\r'
  }

  function Delta(c: char): int {
    if c == '[' || c == '(' then 1 else if c == ']' || c == ')' then -1 else 0
  }

  /** Bracket depth at the end of s. */
  function Depth(s: string): int {
    if s == "" then 0 else Delta(s[0]) + Depth(s[1..])
  }

  /** Characters that stand for structure: union bars, opening brackets, and the
      angle brackets of the output. */
  function CharWeight(c: char): nat {
    if c == '|' || c == '[' || c == '<' then 1 else 0
  }

  function Weight(s: string): nat {
    if s == "" then 0 else CharWeight(s[0]) + Weight(s[1..])
  }

  lemma {:induction false} DepthAppend(a: string, b: string)
    ensures Depth(a + b) == Depth(a) + Depth(b)
  {
    if a == "" {
      assert a + b == b;
    } else {
      DepthAppend(a[1..], b);
      assert (a + b)[1..] == a[1..] + b;
    }
  }

  lemma {:induction false} WeightAppend(a: string, b: string)
    ensures Weight(a + b) == Weight(a) + Weight(b)
  {
    if a == "" {
      assert a + b == b;
    } else {
      WeightAppend(a[1..], b);
      assert (a + b)[1..] == a[1..] + b;
    }
  }

  // ----- positions of separators -----

  /** Reading s from depth d meets no separator at depth 0. */
  predicate NoCut(d: int, s: string, sep: char)
    decreases |s|
  {
    s == "" || ((s[0] == sep ==> d != 0) && NoCut(d + Delta(s[0]), s[1..], sep))
  }

  /** Reading s from depth d never goes below 0. */
  predicate NonNegative(d: int, s: string)
    decreases |s|
  {
    d >= 0 && (s == "" || NonNegative(d + Delta(s[0]), s[1..]))
  }

  /** Reading s from depth d meets a union bar below depth 0. */
  predicate BarBelow(d: int, s: string)
    decreases |s|
  {
    s != "" && ((s[0] == '|' && d < 0) || BarBelow(d + Delta(s[0]), s[1..]))
  }

  lemma {:induction false} NoCutAppend(d: int, a: string, b: string, sep: char)
    ensures NoCut(d, a + b, sep) <==> NoCut(d, a, sep) && NoCut(d + Depth(a), b, sep)
    decreases |a|
  {
    if a == "" {
      assert a + b == b;
    } else {
      NoCutAppend(d + Delta(a[0]), a[1..], b, sep);
      assert (a + b)[1..] == a[1..] + b;
    }
  }

  lemma {:induction false} NonNegativeAppend(d: int, a: string, b: string)
    ensures NonNegative(d, a + b) <==> NonNegative(d, a) && NonNegative(d + Depth(a), b)
    decreases |a|
  {
    if a == "" {
      assert a + b == b;
    } else {
      NonNegativeAppend(d + Delta(a[0]), a[1..], b);
      assert (a + b)[1..] == a[1..] + b;
    }
  }

  lemma {:induction false} BarBelowAppend(d: int, a: string, b: string)
    ensures BarBelow(d, a + b) <==> BarBelow(d, a) || BarBelow(d + Depth(a), b)
    decreases |a|
  {
    if a == "" {
      assert a + b == b;
    } else {
      BarBelowAppend(d + Delta(a[0]), a[1..], b);
      assert (a + b)[1..] == a[1..] + b;
    }
  }

  /** Inside brackets nothing is a separator at depth 0. */
  lemma {:induction false} InsideNoCut(d: int, s: string, sep: char)
    requires NonNegative(d, s)
    ensures NoCut(d + 1, s, sep)
    decreases |s|
  {
    if s != "" { InsideNoCut(d + Delta(s[0]), s[1..], sep); }
  }

  lemma {:induction false} DeeperNonNegative(d: int, e: nat, s: string)
    requires NonNegative(d, s)
    ensures NonNegative(d + e, s)
    decreases |s|
  {
    if s != "" { DeeperNonNegative(d + Delta(s[0]), e, s[1..]); }
  }

  // ----- strip -----

  function Strip(s: string): string
    decreases |s|
  {
    if s != "" && IsSpace(s[0]) then Strip(s[1..])
    else if s != "" && IsSpace(s[|s| - 1]) then Strip(s[..|s| - 1])
    else s
  }

  /** Stripping keeps depth, weight and bars. */
  lemma {:induction false} StripKeeps(s: string)
    ensures Depth(Strip(s)) == Depth(s) && Weight(Strip(s)) == Weight(s)
    ensures BarBelow(0, Strip(s)) <==> BarBelow(0, s)
    ensures Strip(Strip(s)) == Strip(s)
    decreases |s|
  {
    if s != "" && IsSpace(s[0]) {
      StripKeeps(s[1..]);
    } else if s != "" && IsSpace(s[|s| - 1]) {
      var n := |s| - 1;
      StripKeeps(s[..n]);
      assert s == s[..n] + [s[n]];
      DepthAppend(s[..n], [s[n]]);
      WeightAppend(s[..n], [s[n]]);
      BarBelowAppend(0, s[..n], [s[n]]);
    }
  }

  /** s starts and ends with something other than a space. */
  predicate Trimmed(s: string) {
    s != "" && !IsSpace(s[0]) && !IsSpace(s[|s| - 1])
  }

  lemma StripPadded(s: string)
    requires Trimmed(s)
    ensures Strip(s) == s && Strip(" " + s) == s && Strip(s + " ") == s && Strip(" " + s + " ") == s
  {
    assert (" " + s)[1..] == s;
    assert (s + " ")[..|s|] == s;
    assert (" " + s + " ")[1..] == s + " ";
  }

  // ----- the splitters -----

  /** What the splitter still returns when it has read to depth d, holds cur, and rest is left. */
  function Cut(d: int, cur: string, rest: string, sep: char): seq<string>
    decreases |rest|
  {
    if rest == "" then (if cur != "" then [cur] else [])
    else if rest[0] == sep && d == 0 && Delta(sep) == 0 then [cur] + Cut(0, "", rest[1..], sep)
    else Cut(d + Delta(rest[0]), cur + [rest[0]], rest[1..], sep)
  }

  function Split(s: string, sep: char): seq<string> {
    Cut(0, "", s, sep)
  }

  method SplitLoop(s: string, sep: char) returns (result: seq<string>)
    requires sep == ',' || sep == '|'
    ensures result == Split(s, sep)
  {
    result := [];
    var depth, current := 0, "";
    for i := 0 to |s|
      invariant result + Cut(depth, current, s[i..], sep) == Split(s, sep)
    {
      var ch := s[i];
      assert s[i..][1..] == s[i + 1..];
      if ch == '[' || ch == '(' {
        depth, current := depth + 1, current + [ch];
      } else if ch == ')' || ch == ']' {
        depth, current := depth - 1, current + [ch];
      } else if ch == sep && depth == 0 {
        result, current := result + [current], "";
      } else {
        current := current + [ch];
      }
    }
    if current != "" {
      result := result + [current];
    }
  }

  function Glue(parts: seq<string>, sep: string): string {
    if parts == [] then ""
    else if |parts| == 1 then parts[0]
    else parts[0] + sep + Glue(parts[1..], sep)
  }

  lemma {:induction false} CutNonempty(d: int, cur: string, rest: string, sep: char)
    requires cur + rest != ""
    ensures Cut(d, cur, rest, sep) != []
    decreases |rest|
  {
    if rest != "" && !(rest[0] == sep && d == 0 && Delta(sep) == 0) {
      CutNonempty(d + Delta(rest[0]), cur + [rest[0]], rest[1..], sep);
    }
  }

  lemma GlueCons(first: string, parts: seq<string>, sep: string)
    requires parts != []
    ensures Glue([first] + parts, sep) == first + sep + Glue(parts, sep)
  {
    assert ([first] + parts)[1..] == parts;
  }

  /** At most an empty last part is lost: gluing the parts gives the input back. */
  lemma {:induction false} CutRejoins(d: int, cur: string, rest: string, sep: char) returns (lost: string)
    ensures cur + rest == Glue(Cut(d, cur, rest, sep), [sep]) + lost
    ensures lost == "" || lost == [sep]
    decreases |rest|
  {
    if rest == "" {
      lost := "";
      assert cur + rest == cur;
    } else if rest[0] == sep && d == 0 && Delta(sep) == 0 {
      var tail := rest[1..];
      assert rest == [sep] + tail;
      if tail == "" {
        lost := [sep];
        assert Cut(d, cur, rest, sep) == [cur];
      } else {
        CutNonempty(0, "", tail, sep);
        lost := CutRejoins(0, "", tail, sep);
        RejoinOne(cur, tail, Cut(0, "", tail, sep), lost, sep);
      }
    } else {
      lost := CutRejoins(d + Delta(rest[0]), cur + [rest[0]], rest[1..], sep);
      assert cur + rest == cur + [rest[0]] + rest[1..];
    }
  }

  lemma RejoinOne(cur: string, tail: string, more: seq<string>, lost: string, sep: char)
    requires more != [] && "" + tail == Glue(more, [sep]) + lost
    ensures cur + ([sep] + tail) == Glue([cur] + more, [sep]) + lost
  {
    GlueCons(cur, more, [sep]);
    assert tail == Glue(more, [sep]) + lost;
  }

  /** No part holds a separator at depth 0, and all but the last are balanced. */
  predicate CleanParts(parts: seq<string>, sep: char) {
    && (forall k :: 0 <= k < |parts| ==> NoCut(0, parts[k], sep))
    && (forall k :: 0 <= k < |parts| - 1 ==> Depth(parts[k]) == 0)
  }

  /** Every cut is made at depth 0, and none is missed. */
  lemma {:induction false} CutAtDepthZero(d: int, cur: string, rest: string, sep: char)
    requires (sep == ',' || sep == '|') && Depth(cur) == d && NoCut(0, cur, sep)
    ensures CleanParts(Cut(d, cur, rest, sep), sep)
    decreases |rest|
  {
    if rest != "" {
      if rest[0] == sep && d == 0 {
        CutAtDepthZero(0, "", rest[1..], sep);
      } else {
        DepthAppend(cur, [rest[0]]);
        NoCutAppend(0, cur, [rest[0]], sep);
        CutAtDepthZero(d + Delta(rest[0]), cur + [rest[0]], rest[1..], sep);
      }
    }
  }

  /** Text without a separator at depth 0 goes into the current part as it is. */
  lemma {:induction false} CutPass(d: int, cur: string, a: string, b: string, sep: char)
    requires NoCut(d, a, sep)
    ensures Cut(d, cur, a + b, sep) == Cut(d + Depth(a), cur + a, b, sep)
    decreases |a|
  {
    if a == "" {
      assert a + b == b && cur + a == cur;
    } else {
      assert (a + b)[1..] == a[1..] + b;
      assert cur + [a[0]] + a[1..] == cur + a;
      CutPass(d + Delta(a[0]), cur + [a[0]], a[1..], b, sep);
    }
  }

  /** A part that a splitter cannot cut. */
  predicate Solid(s: string, sep: char) {
    Depth(s) == 0 && NoCut(0, s, sep)
  }

  /** Splitting undoes gluing with a separator. */
  lemma SplitTwo(a: string, b: string, sep: char)
    requires (sep == ',' || sep == '|') && Solid(a, sep)
    ensures Split(a + [sep] + b, sep) == [a] + Split(b, sep)
  {
    CutPass(0, "", a, [sep] + b, sep);
    assert a + [sep] + b == a + ([sep] + b);
    assert ([sep] + b)[1..] == b;
    assert "" + a == a;
  }

  lemma SplitOne(a: string, sep: char)
    requires Solid(a, sep) && a != ""
    ensures Split(a, sep) == [a]
  {
    CutPass(0, "", a, "", sep);
    assert a + "" == a && "" + a == a;
  }

  // ----- weight and bars of the parts -----

  function TotalWeight(parts: seq<string>): nat {
    if parts == [] then 0 else Weight(parts[0]) + TotalWeight(parts[1..])
  }

  /** Each cut at a bar uses up one unit of weight. */
  lemma {:induction false} CutWeight(d: int, cur: string, rest: string, sep: char)
    requires Cut(d, cur, rest, sep) != []
    ensures var parts := Cut(d, cur, rest, sep);
            TotalWeight(parts) + (|parts| - 1) * CharWeight(sep) <= Weight(cur) + Weight(rest)
    decreases |rest|
  {
    if rest != "" {
      if rest[0] == sep && d == 0 && Delta(sep) == 0 {
        var more := Cut(0, "", rest[1..], sep);
        assert ([cur] + more)[1..] == more;
        if more != [] { CutWeight(0, "", rest[1..], sep); }
      } else {
        WeightAppend(cur, [rest[0]]);
        CutWeight(d + Delta(rest[0]), cur + [rest[0]], rest[1..], sep);
      }
    }
  }

  /** A balanced string with a bar below depth 0: brackets close before they open. */
  predicate Crossed(s: string) {
    Depth(s) == 0 && BarBelow(0, s)
  }

  /** Some part inherits the crossing. */
  lemma {:induction false} CutCrossed(d: int, cur: string, rest: string, sep: char) returns (k: nat)
    requires sep == ',' || sep == '|'
    requires Depth(cur) == d && d + Depth(rest) == 0 && (BarBelow(0, cur) || BarBelow(d, rest))
    ensures k < |Cut(d, cur, rest, sep)| && Crossed(Cut(d, cur, rest, sep)[k])
    decreases |rest|
  {
    if rest == "" {
      k := 0;
    } else if rest[0] == sep && d == 0 {
      if BarBelow(0, cur) {
        k := 0;
      } else {
        var j := CutCrossed(0, "", rest[1..], sep);
        k := j + 1;
      }
    } else {
      DepthAppend(cur, [rest[0]]);
      BarBelowAppend(0, cur, [rest[0]]);
      k := CutCrossed(d + Delta(rest[0]), cur + [rest[0]], rest[1..], sep);
    }
  }
}
