/** String operations the executor and the performer rely on, written out the
    way Ruby's core library behaves: `Array#join`, `String#split` with a
    one-character separator, `String#include?`, and a case-insensitive
    literal match standing in for `String#match?` against a `Regexp` built
    with `Regexp::IGNORECASE`. */
module Strings {

  // ---------------------------------------------------------------------------
  // Array#join

  /** `parts.join(sep)`: the parts with `sep` between each neighbouring pair;
      the empty array joins to the empty string. */
  function Join(parts: seq<string>, sep: string): string
  {
    if |parts| == 0 then ""
    else if |parts| == 1 then parts[0]
    else parts[0] + sep + Join(parts[1..], sep)
  }

  /** Joining two non-empty lists puts one separator between their joins, so
      `join` keeps the order of its parts. */
  lemma {:induction false} JoinConcat(a: seq<string>, b: seq<string>, sep: string)
    requires |a| > 0 && |b| > 0
    ensures Join(a + b, sep) == Join(a, sep) + sep + Join(b, sep)
  {
    if |a| == 1 {
      assert (a + b)[1..] == b;
    } else {
      assert (a + b)[1..] == a[1..] + b;
      JoinConcat(a[1..], b, sep);
    }
  }

  /** Appending one part adds a separator and that part. */
  lemma JoinSnoc(parts: seq<string>, x: string, sep: string)
    requires |parts| > 0
    ensures Join(parts + [x], sep) == Join(parts, sep) + sep + x
  {
    JoinConcat(parts, [x], sep);
  }

  /** `n` copies of `x`. */
  function Repeat<T>(x: T, n: nat): (r: seq<T>)
    ensures |r| == n
    ensures forall i :: 0 <= i < n ==> r[i] == x
  {
    if n == 0 then [] else [x] + Repeat(x, n - 1)
  }

  /** Trailing empty parts each add one separator and nothing else. */
  lemma {:induction false} JoinTrailingEmpties(parts: seq<string>, k: nat, sep: char)
    requires |parts| > 0
    ensures Join(parts + Repeat("", k), [sep]) == Join(parts, [sep]) + Repeat(sep, k)
  {
    if k > 0 {
      var shorter := parts + Repeat("", k - 1);
      assert parts + Repeat("", k) == shorter + [""] by {
        assert Repeat("", k) == Repeat("", k - 1) + [""];
      }
      JoinConcat(shorter, [""], [sep]);
      assert Join([""], [sep]) == "";
      JoinTrailingEmpties(parts, k - 1, sep);
      assert Repeat(sep, k) == Repeat(sep, k - 1) + [sep];
      calc {
        Join(parts + Repeat("", k), [sep]);
        Join(shorter + [""], [sep]);
        Join(parts, [sep]) + Repeat(sep, k - 1) + [sep];
        Join(parts, [sep]) + (Repeat(sep, k - 1) + [sep]);
        Join(parts, [sep]) + Repeat(sep, k);
      }
    } else {
      assert parts + Repeat("", k) == parts;
    }
  }

  /** A list made only of `k > 0` empty parts joins to `k - 1` separators. */
  lemma {:induction false} JoinOnlyEmpties(k: nat, sep: char)
    requires k > 0
    ensures Join(Repeat("", k), [sep]) == Repeat(sep, k - 1)
  {
    if k > 1 {
      JoinTrailingEmpties([""], k - 1, sep);
      assert [""] + Repeat("", k - 1) == Repeat("", k);
    }
  }

  // ---------------------------------------------------------------------------
  // String#split with a one-character separator

  /** Every field, empty ones included, between occurrences of `sep`: a string
      with `n` separators has `n + 1` fields, none of which holds `sep`. */
  function SplitAll(s: string, sep: char): (r: seq<string>)
    ensures |r| >= 1
    ensures forall i :: 0 <= i < |r| ==> sep !in r[i]
  {
    if |s| == 0 then [""]
    else
      var rest := SplitAll(s[1..], sep);
      if s[0] == sep then [""] + rest
      else [[s[0]] + rest[0]] + rest[1..]
  }

  /** Gluing the fields back together with the separator gives back the string. */
  lemma {:induction false} JoinSplitAll(s: string, sep: char)
    ensures Join(SplitAll(s, sep), [sep]) == s
  {
    if |s| > 0 {
      var rest := SplitAll(s[1..], sep);
      JoinSplitAll(s[1..], sep);
      if s[0] == sep {
        assert ([""] + rest)[1..] == rest;
      } else if |rest| > 1 {
        var r := [[s[0]] + rest[0]] + rest[1..];
        assert r[1..] == rest[1..];
        assert s == [s[0]] + s[1..];
      } else {
        assert s == [s[0]] + s[1..];
      }
    }
  }

  /** A string without the separator is a single field. */
  lemma {:induction false} SplitAllWithoutSeparator(x: string, sep: char)
    requires sep !in x
    ensures SplitAll(x, sep) == [x]
  {
    if |x| > 0 {
      SplitAllWithoutSeparator(x[1..], sep);
      assert x == [x[0]] + x[1..];
    }
  }

  /** A separator after a separator-free prefix ends the first field there. */
  lemma {:induction false} SplitAllAtSeparator(x: string, y: string, sep: char)
    requires sep !in x
    ensures SplitAll(x + [sep] + y, sep) == [x] + SplitAll(y, sep)
  {
    var s := x + [sep] + y;
    if |x| == 0 {
      assert s[0] == sep && s[1..] == y;
    } else {
      assert s[0] == x[0] && s[1..] == x[1..] + [sep] + y;
      SplitAllAtSeparator(x[1..], y, sep);
      assert x == [x[0]] + x[1..];
    }
  }

  /** Separator-free fields are recovered exactly from their join. */
  lemma {:induction false} SplitAllJoin(parts: seq<string>, sep: char)
    requires |parts| > 0
    requires forall i :: 0 <= i < |parts| ==> sep !in parts[i]
    ensures SplitAll(Join(parts, [sep]), sep) == parts
  {
    if |parts| == 1 {
      SplitAllWithoutSeparator(parts[0], sep);
    } else {
      SplitAllJoin(parts[1..], sep);
      SplitAllAtSeparator(parts[0], Join(parts[1..], [sep]), sep);
      assert parts == [parts[0]] + parts[1..];
    }
  }

  /** Ruby drops the trailing empty fields of a split (the default limit of 0):
      the result is the longest prefix of `fields` that does not end in "". */
  function DropTrailingEmpty(fields: seq<string>): (r: seq<string>)
    ensures |r| <= |fields| && r == fields[..|r|]
    ensures |r| > 0 ==> r[|r| - 1] != ""
    ensures forall i :: |r| <= i < |fields| ==> fields[i] == ""
  {
    if |fields| > 0 && fields[|fields| - 1] == "" then DropTrailingEmpty(fields[..|fields| - 1])
    else fields
  }

  /** What `s.split(sep)` can return: separator-free fields, the last one not empty. */
  predicate IsSplitResult(fields: seq<string>, sep: char)
  {
    && (forall i :: 0 <= i < |fields| ==> sep !in fields[i])
    && (|fields| > 0 ==> fields[|fields| - 1] != "")
  }

  /** `s.split(sep)` with a one-character separator, splitting at every
      occurrence of that character. Ruby's whitespace splitting for a single
      space is a different operation and is not what this function gives. */
  function Split(s: string, sep: char): (r: seq<string>)
    ensures IsSplitResult(r, sep)
  {
    DropTrailingEmpty(SplitAll(s, sep))
  }

  /** Splitting loses nothing but trailing separators: the fields joined back
      with `sep`, followed by `n` separators, are the original string. */
  lemma SplitLosesOnlyTrailingSeparators(s: string, sep: char) returns (n: nat)
    ensures s == Join(Split(s, sep), [sep]) + Repeat(sep, n)
  {
    var all := SplitAll(s, sep);
    var kept := Split(s, sep);
    var k := |all| - |kept|;
    assert all == kept + Repeat("", k);
    JoinSplitAll(s, sep);
    if |kept| > 0 {
      JoinTrailingEmpties(kept, k, sep);
      n := k;
    } else {
      JoinOnlyEmpties(k, sep);
      n := k - 1;
    }
  }

  /** Splitting a join of possible split results gives the fields back. */
  lemma SplitJoin(fields: seq<string>, sep: char)
    requires IsSplitResult(fields, sep)
    ensures Split(Join(fields, [sep]), sep) == fields
  {
    if |fields| > 0 {
      SplitAllJoin(fields, sep);
    }
  }

  // ---------------------------------------------------------------------------
  // Substrings: String#include?

  /** `w` occurs in `s` starting at index `i`. */
  predicate OccursAt(s: string, w: string, i: int)
  {
    0 <= i && i + |w| <= |s| && s[i..i + |w|] == w
  }

  /** `s.include?(w)`. */
  predicate Contains(s: string, w: string)
  {
    exists i | 0 <= i <= |s| - |w| :: OccursAt(s, w, i)
  }

  /** An occurrence of `w` in `a + b + c` lies within `b` when `w` cannot start
      inside `a` and shares no character with `c`. */
  lemma ContainsFramed(a: string, b: string, c: string, w: string)
    requires |w| > 0 && w[0] !in a
    requires forall k :: 0 <= k < |c| ==> c[k] !in w
    ensures Contains(a + b + c, w) <==> Contains(b, w)
  {
    var s := a + b + c;
    if Contains(b, w) {
      var i :| 0 <= i <= |b| - |w| && OccursAt(b, w, i);
      assert s[|a| + i..|a| + i + |w|] == b[i..i + |w|];
      assert OccursAt(s, w, |a| + i);
    }
    if Contains(s, w) {
      var i :| 0 <= i <= |s| - |w| && OccursAt(s, w, i);
      assert s[i] == w[0];
      var j := |a| + |b|;
      assert |a| <= i;
      assert i < j;
      if i + |w| > j {
        OccurrenceCovers(s, w, i, j);
        assert false;
      }
      assert b[i - |a|..i - |a| + |w|] == s[i..i + |w|];
      assert OccursAt(b, w, i - |a|);
    }
  }

  /** Every index an occurrence spans holds a character of `w`. */
  lemma OccurrenceCovers(s: string, w: string, i: int, j: int)
    requires OccursAt(s, w, i) && i <= j < i + |w|
    ensures s[j] in w
  {
  }

  // ---------------------------------------------------------------------------
  // Case-insensitive matching

  /** ASCII lower-casing of one character; every other character is kept. */
  function ToLower(c: char): char
  {
    if 'A' <= c <= 'Z' then (c as int + 32) as char else c
  }

  /** ASCII lower-casing of a string, character by character. */
  function LowerCase(s: string): (r: string)
    ensures |r| == |s|
    ensures forall i :: 0 <= i < |s| ==> r[i] == ToLower(s[i])
  {
    if |s| == 0 then [] else [ToLower(s[0])] + LowerCase(s[1..])
  }

  /** Same length, and equal character by character up to ASCII case. */
  predicate EqualIgnoringCase(x: string, y: string)
  {
    |x| == |y| && forall k :: 0 <= k < |x| ==> ToLower(x[k]) == ToLower(y[k])
  }

  /** `s.match?(Regexp.new(pattern, Regexp::IGNORECASE))` for a pattern that
      holds no regular-expression metacharacters: somewhere in `s` there is a
      stretch equal to `pattern` up to ASCII case. */
  predicate MatchesIgnoringCase(s: string, pattern: string)
  {
    exists i | 0 <= i <= |s| - |pattern| :: MatchesAt(s, pattern, i)
  }

  /** `pattern` matches `s` up to ASCII case starting at index `i`. */
  predicate MatchesAt(s: string, pattern: string, i: int)
  {
    0 <= i && i + |pattern| <= |s| && EqualIgnoringCase(s[i..i + |pattern|], pattern)
  }

  /** Reference definition: a case-insensitive match is a plain substring
      match once both sides are lower-cased. */
  lemma MatchesIgnoringCaseIsLowerContains(s: string, pattern: string)
    ensures MatchesIgnoringCase(s, pattern) <==> Contains(LowerCase(s), LowerCase(pattern))
  {
    var ls, lp := LowerCase(s), LowerCase(pattern);
    if MatchesIgnoringCase(s, pattern) {
      var i :| 0 <= i <= |s| - |pattern| && MatchesAt(s, pattern, i);
      forall k | 0 <= k < |lp|
        ensures ls[i + k] == lp[k]
      {
        assert s[i..i + |pattern|][k] == s[i + k];
      }
      assert ls[i..i + |lp|] == lp;
      assert OccursAt(ls, lp, i);
    }
    if Contains(ls, lp) {
      var i :| 0 <= i <= |ls| - |lp| && OccursAt(ls, lp, i);
      forall k | 0 <= k < |pattern|
        ensures ToLower(s[i..i + |pattern|][k]) == ToLower(pattern[k])
      {
        assert ls[i..i + |lp|][k] == lp[k];
      }
      assert MatchesAt(s, pattern, i);
    }
  }

  /** An exact occurrence is in particular a case-insensitive one. */
  lemma ContainsMatchesIgnoringCase(s: string, pattern: string)
    requires Contains(s, pattern)
    ensures MatchesIgnoringCase(s, pattern)
  {
    var i :| 0 <= i <= |s| - |pattern| && OccursAt(s, pattern, i);
    assert MatchesAt(s, pattern, i);
  }

  /** Lower-casing either side does not change whether they match. */
  lemma MatchesIgnoringCaseOfLowerCase(s: string, pattern: string)
    ensures MatchesIgnoringCase(LowerCase(s), pattern) <==> MatchesIgnoringCase(s, pattern)
    ensures MatchesIgnoringCase(s, LowerCase(pattern)) <==> MatchesIgnoringCase(s, pattern)
  {
    LowerCaseIdempotent(s);
    LowerCaseIdempotent(pattern);
    MatchesIgnoringCaseIsLowerContains(s, pattern);
    MatchesIgnoringCaseIsLowerContains(LowerCase(s), pattern);
    MatchesIgnoringCaseIsLowerContains(s, LowerCase(pattern));
  }

  lemma LowerCaseIdempotent(s: string)
    ensures LowerCase(LowerCase(s)) == LowerCase(s)
  {
  }
}
