/** `glob_match` of src/config.rs: case-insensitive matching with `*` wildcards. */
module Glob {
  import opened Wrappers
  import opened Text

  /** The non-empty `parts` occur in `v` from left to right, each after the end of
      the previous one; the first need not be at the start, nor the last at the end. */
  predicate InOrder(parts: seq<string>, v: string)
    decreases |parts|
  {
    if parts == [] then true
    else if parts[0] == [] then InOrder(parts[1..], v)
    else exists i :: 0 <= i <= |v| && OccursAt(v, parts[0], i) && InOrder(parts[1..], v[i + |parts[0]|..])
  }

  /** What `glob_match` answers once both strings are lower-cased, branch by
      branch over the pieces of the pattern split at `*`. */
  predicate LoweredGlobMatches(p: string, v: string)
  {
    if '*' !in p then p == v
    else
      var parts := Split(p, '*');
      if |parts| == 2 && parts[0] == [] then EndsWith(v, parts[1])
      else if |parts| == 2 && parts[1] == [] then StartsWith(v, parts[0])
      else if |parts| == 2 then StartsWith(v, parts[0]) && EndsWith(v, parts[1])
      else if |parts| == 3 && parts[0] == [] && parts[2] == [] then Contains(v, parts[1])
      else InOrder(parts, v)
  }

  /** What `glob_match(pattern, value)` answers. */
  predicate GlobMatches(pattern: string, value: string)
  {
    LoweredGlobMatches(Lower(pattern), Lower(value))
  }

  /** `glob_match`: the five fixed shapes are tested directly; any other shape
      is searched for piece by piece, each search starting after the previous find. */
  method GlobMatch(pattern: string, value: string) returns (matched: bool)
    ensures matched == GlobMatches(pattern, value)
  {
    var patternLower := Lower(pattern);
    var valueLower := Lower(value);
    if '*' !in patternLower {
      return patternLower == valueLower;
    }
    var parts := Split(patternLower, '*');
    if |parts| == 2 && parts[0] == [] {
      return EndsWith(valueLower, parts[1]);
    } else if |parts| == 2 && parts[1] == [] {
      return StartsWith(valueLower, parts[0]);
    } else if |parts| == 2 {
      return StartsWith(valueLower, parts[0]) && EndsWith(valueLower, parts[1]);
    } else if |parts| == 3 && parts[0] == [] && parts[2] == [] {
      return Contains(valueLower, parts[1]);
    }
    matched := SearchInOrder(parts, valueLower);
  }

  /** The general branch of `glob_match`: each non-empty piece is searched for
      in what follows the previous find; a missing piece fails the match. */
  method SearchInOrder(parts: seq<string>, value: string) returns (found: bool)
    ensures found == InOrder(parts, value)
  {
    var remaining := value;
    for k := 0 to |parts|
      invariant InOrder(parts[k..], remaining) == InOrder(parts, value)
    {
      var part := parts[k];
      assert parts[k..][1..] == parts[k + 1..];
      if part != [] {
        var pos := Find(remaining, part);
        if pos.None? {
          return false;
        }
        FirstOccurrenceSuffices(parts[k..], remaining, pos.value);
        remaining := remaining[pos.value + |part|..];
      }
    }
    return true;
  }

  // ----- the greedy search -----

  /** Text in front of `v` does not disturb an in-order occurrence. */
  lemma {:induction false} InOrderPrepend(parts: seq<string>, t: string, v: string)
    requires InOrder(parts, v)
    ensures InOrder(parts, t + v)
    decreases |parts|
  {
    if parts == [] {
    } else if parts[0] == [] {
      InOrderPrepend(parts[1..], t, v);
    } else {
      var p := parts[0];
      var i :| 0 <= i <= |v| && OccursAt(v, p, i) && InOrder(parts[1..], v[i + |p|..]);
      assert (t + v)[|t| + i..|t| + i + |p|] == v[i..i + |p|];
      assert OccursAt(t + v, p, |t| + i);
      assert (t + v)[|t| + i + |p|..] == v[i + |p|..];
    }
  }

  /** Text behind `v` does not disturb an in-order occurrence. */
  lemma {:induction false} InOrderAppend(parts: seq<string>, v: string, t: string)
    requires InOrder(parts, v)
    ensures InOrder(parts, v + t)
    decreases |parts|
  {
    if parts == [] {
    } else if parts[0] == [] {
      InOrderAppend(parts[1..], v, t);
    } else {
      var p := parts[0];
      var i :| 0 <= i <= |v| && OccursAt(v, p, i) && InOrder(parts[1..], v[i + |p|..]);
      assert (v + t)[i..i + |p|] == v[i..i + |p|];
      assert OccursAt(v + t, p, i);
      InOrderAppend(parts[1..], v[i + |p|..], t);
      assert (v + t)[i + |p|..] == v[i + |p|..] + t;
    }
  }

  /** Taking the first occurrence of the first piece loses no match: the rest
      occurs in order after it exactly when the whole occurs in order. */
  lemma FirstOccurrenceSuffices(parts: seq<string>, v: string, i: nat)
    requires parts != [] && parts[0] != []
    requires OccursAt(v, parts[0], i)
    requires forall j :: 0 <= j < i ==> !OccursAt(v, parts[0], j)
    ensures InOrder(parts, v) == InOrder(parts[1..], v[i + |parts[0]|..])
  {
    var p := parts[0];
    if InOrder(parts, v) {
      var j :| 0 <= j <= |v| && OccursAt(v, p, j) && InOrder(parts[1..], v[j + |p|..]);
      assert i <= j;
      var t := v[i + |p|..j + |p|];
      assert v[i + |p|..] == t + v[j + |p|..];
      InOrderPrepend(parts[1..], t, v[j + |p|..]);
    }
  }

  // ----- the shapes of a pattern -----

  function LowerEach(parts: seq<string>): (r: seq<string>)
    ensures |r| == |parts|
    ensures forall i :: 0 <= i < |parts| ==> r[i] == Lower(parts[i])
  {
    seq(|parts|, i requires 0 <= i < |parts| => Lower(parts[i]))
  }

  /** Lower-casing a `*`-joined pattern lower-cases each piece. */
  lemma {:induction false} LowerJoin(parts: seq<string>)
    requires |parts| >= 1
    ensures Lower(Join(parts, '*')) == Join(LowerEach(parts), '*')
  {
    if |parts| > 1 {
      LowerJoin(parts[1..]);
      LowerAppend(parts[0] + ['*'], Join(parts[1..], '*'));
      LowerAppend(parts[0], ['*']);
      assert LowerEach(parts)[1..] == LowerEach(parts[1..]);
    }
  }

  /** The pieces of the lower-cased pattern are the lower-cased pieces. */
  lemma SplitLowerJoin(parts: seq<string>)
    requires |parts| >= 1
    requires forall i :: 0 <= i < |parts| ==> '*' !in parts[i]
    ensures '*' in Lower(Join(parts, '*')) <==> |parts| >= 2
    ensures Split(Lower(Join(parts, '*')), '*') == LowerEach(parts)
  {
    LowerJoin(parts);
    forall i | 0 <= i < |parts| ensures '*' !in LowerEach(parts)[i] {
      LowerKeepsSymbol(parts[i], '*');
    }
    SplitJoin(LowerEach(parts), '*');
  }

  /** A pattern without `*` matches exactly the values equal to it up to case. */
  lemma GlobLiteral(pattern: string, value: string)
    requires '*' !in pattern
    ensures GlobMatches(pattern, value) <==> Lower(pattern) == Lower(value)
  {
    LowerKeepsSymbol(pattern, '*');
  }

  /** `prefix*suffix` (either side possibly empty) matches exactly the values that
      start with the prefix and end with the suffix; the two may overlap. */
  lemma GlobOneStar(prefix: string, suffix: string, value: string)
    requires '*' !in prefix && '*' !in suffix
    ensures GlobMatches(prefix + "*" + suffix, value)
       <==> StartsWith(Lower(value), Lower(prefix)) && EndsWith(Lower(value), Lower(suffix))
  {
    var parts := [prefix, suffix];
    assert Join(parts, '*') == prefix + "*" + suffix;
    SplitLowerJoin(parts);
  }

  /** `*middle*` matches exactly the values that contain the middle. */
  lemma GlobInfix(middle: string, value: string)
    requires '*' !in middle
    ensures GlobMatches("*" + middle + "*", value) <==> Contains(Lower(value), Lower(middle))
  {
    var parts := [[], middle, []];
    assert parts[1..][1..] == [[]];
    assert Join(parts[1..], '*') == middle + "*";
    assert Join(parts, '*') == "*" + middle + "*";
    SplitLowerJoin(parts);
  }

  /** `*` and `**` match every value. */
  lemma GlobStarMatchesAll(value: string)
    ensures GlobMatches("*", value)
    ensures GlobMatches("**", value)
  {
    GlobOneStar([], [], value);
    assert [] + "*" + [] == "*";
    GlobInfix([], value);
    assert "*" + [] + "*" == "**";
    ContainsEmpty(Lower(value));
  }

  /** Three or more pieces, other than `*middle*`, match exactly when the
      non-empty lower-cased pieces occur in the lower-cased value in order. */
  lemma GlobSegments(parts: seq<string>, value: string)
    requires |parts| >= 3
    requires forall i :: 0 <= i < |parts| ==> '*' !in parts[i]
    requires !(|parts| == 3 && parts[0] == [] && parts[2] == [])
    ensures GlobMatches(Join(parts, '*'), value) <==> InOrder(LowerEach(parts), Lower(value))
  {
    SplitLowerJoin(parts);
    assert |LowerEach(parts)[0]| == |parts[0]| && |LowerEach(parts)[2]| == |parts[2]|;
  }

  /** Such a pattern is anchored at neither end: text may be added in front of
      and behind a matching value. */
  lemma GlobSegmentsUnanchored(parts: seq<string>, value: string, before: string, after: string)
    requires |parts| >= 3
    requires forall i :: 0 <= i < |parts| ==> '*' !in parts[i]
    requires !(|parts| == 3 && parts[0] == [] && parts[2] == [])
    requires GlobMatches(Join(parts, '*'), value)
    ensures GlobMatches(Join(parts, '*'), before + value + after)
  {
    GlobSegments(parts, value);
    GlobSegments(parts, before + value + after);
    LowerAppend(before + value, after);
    LowerAppend(before, value);
    InOrderPrepend(LowerEach(parts), Lower(before), Lower(value));
    InOrderAppend(LowerEach(parts), Lower(before) + Lower(value), Lower(after));
  }

  /** The pieces occur in order in their own `*`-join. */
  lemma {:induction false} InOrderInJoin(parts: seq<string>)
    requires |parts| >= 1
    ensures InOrder(parts, Join(parts, '*'))
  {
    var j := Join(parts, '*');
    var rest := parts[1..];
    var restOrdered := rest == [] || InOrder(rest, Join(rest, '*'));
    if |parts| > 1 {
      InOrderInJoin(rest);
      InOrderPrepend(rest, ['*'], Join(rest, '*'));
      assert j == parts[0] + (['*'] + Join(rest, '*'));
      if parts[0] == [] {
        assert j == ['*'] + Join(rest, '*');
        InOrderPrepend(rest, [], ['*'] + Join(rest, '*'));
      } else {
        assert OccursAt(j, parts[0], 0);
        assert j[|parts[0]|..] == ['*'] + Join(rest, '*');
      }
    } else if parts[0] != [] {
      assert OccursAt(j, parts[0], 0);
    }
  }

  /** Every pattern matches its own text. */
  lemma GlobMatchesItself(pattern: string)
    ensures GlobMatches(pattern, pattern)
  {
    var p := Lower(pattern);
    if '*' in p {
      var parts := Split(p, '*');
      assert Join(parts, '*') == p;
      if |parts| == 2 {
        assert p == parts[0] + ['*'] + parts[1];
        assert p[|p| - |parts[1]|..] == parts[1];
      } else if |parts| == 3 && parts[0] == [] && parts[2] == [] {
        assert parts[1..][1..] == parts[2..];
        assert Join(parts[1..], '*') == parts[1] + ['*'];
        assert p == ['*'] + parts[1] + ['*'];
        assert OccursAt(p, parts[1], 1);
      } else {
        InOrderInJoin(parts);
      }
    }
  }

  /** Case never matters: lower-casing pattern or value changes no answer. */
  lemma GlobCaseInsensitive(pattern: string, value: string)
    ensures GlobMatches(Lower(pattern), Lower(value)) == GlobMatches(pattern, value)
    ensures GlobMatches(Lower(pattern), value) == GlobMatches(pattern, value)
    ensures GlobMatches(pattern, Lower(value)) == GlobMatches(pattern, value)
  {
    LowerIdempotent(pattern);
    LowerIdempotent(value);
  }

  // ----- examples -----

  /** The documented example `Claude*` matches `Claude Code`. (The strings are
      passed as parameters so that the verifier does not evaluate the literals.) */
  lemma PrefixExample(pattern: string, value: string)
    requires pattern == "Claude*" && value == "Claude Code"
    ensures GlobMatches(pattern, value)
  {
    GlobOneStar("Claude", [], value);
    assert "Claude" + "*" + [] == pattern;
    assert "Claude" + " Code" == value;
    LowerAppend("Claude", " Code");
  }

  /** The documented example `*bash*` matches `my-bash-script`. */
  lemma InfixExample(pattern: string, value: string)
    requires pattern == "*bash*" && value == "my-bash-script"
    ensures GlobMatches(pattern, value)
  {
    GlobInfix("bash", value);
    assert "*" + "bash" + "*" == pattern;
    BashOccurs(value);
  }

  lemma BashOccurs(value: string)
    requires value == "my-bash-script"
    ensures Contains(Lower(value), Lower("bash"))
  {
    LowerOfLowercase("bash");
    LowerOfLowercase(value);
    assert OccursAt(value, "bash", 3);
  }

  /** `ab*ba` matches `aba`: prefix and suffix overlap on the middle `b`. */
  lemma OverlapExample()
    ensures GlobMatches("ab*ba", "aba")
  {
    GlobOneStar("ab", "ba", "aba");
    assert "ab" + "*" + "ba" == "ab*ba";
    LowerOfLowercase("ab");
    LowerOfLowercase("ba");
    LowerOfLowercase("aba");
  }

  /** `a*b*c` matches `xabcx`: three pieces are not anchored at either end. */
  lemma UnanchoredExample()
    ensures GlobMatches("a*b*c", "xabcx")
  {
    var parts := ["a", "b", "c"];
    assert parts[1..][1..] == ["c"];
    assert Join(parts, '*') == "a*b*c";
    GlobSegments(parts, "xabcx");
    LowerOfLowercase("xabcx");
    LowerOfLowercase("a");
    LowerOfLowercase("b");
    LowerOfLowercase("c");
    assert LowerEach(parts) == parts;
    InOrderThree("xabcx");
  }

  lemma InOrderThree(v: string)
    requires v == "xabcx"
    ensures InOrder(["a", "b", "c"], v)
  {
    var parts := ["a", "b", "c"];
    assert OccursAt("cx", "c", 0);
    assert InOrder(["c"], "cx");
    assert OccursAt("bcx", "b", 0);
    assert "bcx"[1..] == "cx";
    assert ["b", "c"][1..] == ["c"];
    assert InOrder(["b", "c"], "bcx");
    assert OccursAt(v, "a", 1);
    assert v[2..] == "bcx";
    assert parts[1..] == ["b", "c"];
  }

  /** The same value is not matched by `a*c`: two pieces are anchored at both ends. */
  lemma AnchoredExample()
    ensures !GlobMatches("a*c", "xabcx")
  {
    GlobOneStar("a", "c", "xabcx");
    assert "a" + "*" + "c" == "a*c";
    LowerOfLowercase("xabcx");
    LowerOfLowercase("a");
  }
}
