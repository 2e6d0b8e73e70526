/**
 Python's single-character `str.split(sep)`, `sep.join(parts)` and the
 newline-only part of `str.splitlines()`, on strings as `seq<char>`.

 With an explicit separator Python's `split` never collapses runs of the
 separator: `"a  b".split(" ") == ["a", "", "b"]`, `"".split(" ") == [""]`.
 The lemmas below show that `Split` and `Join` are mutual inverses and relate
 the pieces to the reference definitions `BeforeFirst` / `AfterFirst`.
 */
module Text {

  /** Number of occurrences of `c` in `s`. */
  function Count(s: string, c: char): nat
  {
    multiset(s)[c]
  }

  /** Index of the first occurrence of `c` in `s` (Python's `s.index(c)`). */
  function IndexOf(s: string, c: char): (i: nat)
    requires c in s
    ensures i < |s| && s[i] == c
    ensures c !in s[..i]
  {
    if s[0] == c then 0
    else
      assert c in s[1..] by { assert s == [s[0]] + s[1..]; }
      var j := IndexOf(s[1..], c);
      assert s[..j + 1] == [s[0]] + s[1..][..j];
      1 + j
  }

  /** The part of `s` before the first `c`, or all of `s` when there is none. */
  function BeforeFirst(s: string, c: char): (r: string)
    ensures c !in r
    ensures c !in s ==> r == s
    ensures c in s ==> r + [c] <= s
  {
    if c in s then s[..IndexOf(s, c)] else s
  }

  /** The part of `s` after the first `c`, or "" when there is none. */
  function AfterFirst(s: string, c: char): (r: string)
    ensures c !in s ==> r == ""
    ensures c in s ==> BeforeFirst(s, c) + [c] + r == s
    ensures |r| < |s| || s == ""
  {
    if c in s then s[IndexOf(s, c) + 1..] else ""
  }

  /** Python's `s.split(sep)` for a one-character separator. */
  function Split(s: string, sep: char): (parts: seq<string>)
    ensures |parts| >= 1
    ensures forall k :: 0 <= k < |parts| ==> sep !in parts[k]
    decreases |s|
  {
    if sep in s then
      var i := IndexOf(s, sep);
      [s[..i]] + Split(s[i + 1..], sep)
    else
      [s]
  }

  /** Python's `sep.join(parts)` for a one-character separator. */
  function Join(parts: seq<string>, sep: char): (s: string)
    ensures |parts| == 0 ==> s == ""
    ensures |parts| >= 1 ==> parts[0] <= s
    ensures |parts| >= 2 ==> parts[0] + [sep] <= s
  {
    if |parts| == 0 then ""
    else if |parts| == 1 then parts[0]
    else parts[0] + [sep] + Join(parts[1..], sep)
  }

  /** Joining the pieces of a split gives back the original string, so no
      separator (in particular no run of spaces) is lost or added. */
  lemma {:induction false} JoinSplit(s: string, sep: char)
    ensures Join(Split(s, sep), sep) == s
    decreases |s|
  {
    if sep in s {
      var i := IndexOf(s, sep);
      var rest := s[i + 1..];
      JoinSplit(rest, sep);
      var tail := Split(rest, sep);
      assert Split(s, sep) == [s[..i]] + tail;
      assert ([s[..i]] + tail)[1..] == tail;
      assert s == s[..i] + [sep] + rest;
    }
  }

  /** Splitting a join of separator-free pieces gives back the pieces. */
  lemma {:induction false} SplitJoin(parts: seq<string>, sep: char)
    requires |parts| >= 1
    requires forall k :: 0 <= k < |parts| ==> sep !in parts[k]
    ensures Split(Join(parts, sep), sep) == parts
    decreases |parts|
  {
    if |parts| > 1 {
      var rest := parts[1..];
      SplitJoin(rest, sep);
      assert Join(parts, sep) == parts[0] + [sep] + Join(rest, sep);
      SplitCons(parts[0], sep, Join(rest, sep));
      assert parts == [parts[0]] + rest;
    }
  }

  /** Splitting at a first separator that follows `x` gives `x`, then the
      pieces of what comes after it. */
  lemma SplitCons(x: string, sep: char, y: string)
    requires sep !in x
    ensures Split(x + [sep] + y, sep) == [x] + Split(y, sep)
  {
    var s := x + [sep] + y;
    assert s[|x|] == sep;
    var i := IndexOf(s, sep);
    assert s[..|x|] == x;
    assert i == |x|;
    assert s[i + 1..] == y;
  }

  /** The first piece of a split is the text before the first separator. */
  lemma SplitHead(s: string, sep: char)
    ensures Split(s, sep)[0] == BeforeFirst(s, sep)
  {
  }

  /** Joining every piece after the first gives exactly the text after the
      first separator: `sep.join(s.split(sep)[1:])`. */
  lemma {:induction false} SplitTail(s: string, sep: char)
    ensures Join(Split(s, sep)[1..], sep) == AfterFirst(s, sep)
  {
    if sep in s {
      var i := IndexOf(s, sep);
      var tail := Split(s[i + 1..], sep);
      assert Split(s, sep) == [s[..i]] + tail;
      assert Split(s, sep)[1..] == tail;
      JoinSplit(s[i + 1..], sep);
    }
  }

  /** When the separator occurs, the second piece of a split is the text
      between the first and the second separator (or to the end). */
  lemma SplitSecond(s: string, sep: char)
    requires sep in s
    ensures |Split(s, sep)| >= 2
    ensures Split(s, sep)[1] == BeforeFirst(AfterFirst(s, sep), sep)
  {
    var i := IndexOf(s, sep);
    assert Split(s, sep) == [s[..i]] + Split(s[i + 1..], sep);
    SplitHead(s[i + 1..], sep);
  }

  /** The first separator of `x + [c] + y` is the one written between them
      whenever `x` holds none. */
  lemma FirstSeparatorAt(x: string, c: char, y: string)
    requires c !in x
    ensures BeforeFirst(x + [c] + y, c) == x
    ensures AfterFirst(x + [c] + y, c) == y
  {
    var s := x + [c] + y;
    assert s[|x|] == c;
    var i := IndexOf(s, c);
    assert s[..|x|] == x;
    assert i == |x|;
    assert s[i + 1..] == y;
  }

  /** Strict lexicographic order on strings, comparing from index `k` on. */
  predicate LessFrom(a: string, b: string, k: nat)
    decreases |a| - k
  {
    if k >= |a| then k < |b|
    else if k >= |b| then false
    else a[k] < b[k] || (a[k] == b[k] && LessFrom(a, b, k + 1))
  }

  /** Strict lexicographic order on strings. */
  predicate Less(a: string, b: string)
  {
    LessFrom(a, b, 0)
  }

  lemma {:induction false} LessFromIrreflexive(a: string, k: nat)
    ensures !LessFrom(a, a, k)
    decreases |a| - k
  {
    if k < |a| {
      LessFromIrreflexive(a, k + 1);
    }
  }

  lemma {:induction false} LessFromTransitive(a: string, b: string, c: string, k: nat)
    requires LessFrom(a, b, k) && LessFrom(b, c, k)
    ensures LessFrom(a, c, k)
    decreases |a| - k
  {
    if k < |a| && k < |b| && k < |c| && a[k] == b[k] == c[k] {
      LessFromTransitive(a, b, c, k + 1);
    }
  }

  lemma {:induction false} LessFromSuffix(p: string, a: string, b: string, j: nat)
    ensures LessFrom(p + a, p + b, |p| + j) == LessFrom(a, b, j)
    decreases |a| - j
  {
    if j < |a| && j < |b| {
      assert (p + a)[|p| + j] == a[j] && (p + b)[|p| + j] == b[j];
      LessFromSuffix(p, a, b, j + 1);
    }
  }

  lemma {:induction false} LessFromPrefix(p: string, a: string, b: string, k: nat)
    requires k <= |p|
    ensures LessFrom(p + a, p + b, k) == LessFrom(a, b, 0)
    decreases |p| - k
  {
    if k == |p| {
      LessFromSuffix(p, a, b, 0);
    } else {
      assert (p + a)[k] == p[k] == (p + b)[k];
      LessFromPrefix(p, a, b, k + 1);
    }
  }

  /** A common prefix does not change the order. */
  lemma CommonPrefixLess(p: string, a: string, b: string)
    ensures Less(p + a, p + b) <==> Less(a, b)
  {
    LessFromPrefix(p, a, b, 0);
  }

  /** Every two neighbours strictly increase. */
  predicate Increasing(s: seq<string>)
  {
    forall i :: 0 <= i < |s| - 1 ==> Less(s[i], s[i + 1])
  }

  /** No string occurs twice. */
  predicate Distinct(s: seq<string>)
  {
    forall i, j :: 0 <= i < j < |s| ==> s[i] != s[j]
  }

  /** Two increasing lists joined at an increasing seam form one. */
  lemma IncreasingAppend(a: seq<string>, b: seq<string>)
    requires Increasing(a) && Increasing(b)
    requires |a| == 0 || |b| == 0 || Less(a[|a| - 1], b[0])
    ensures Increasing(a + b)
  {
    var s := a + b;
    forall i | 0 <= i < |s| - 1 ensures Less(s[i], s[i + 1]) {
      if i + 1 < |a| {
        assert s[i] == a[i] && s[i + 1] == a[i + 1];
      } else if i + 1 == |a| {
        assert s[i] == a[|a| - 1] && s[i + 1] == b[0];
      } else {
        assert s[i] == b[i - |a|] && s[i + 1] == b[i - |a| + 1];
      }
    }
  }

  /** A list whose neighbours strictly increase is strictly increasing
      throughout, hence has no duplicates. */
  lemma {:induction false} IncreasingDistinct(s: seq<string>)
    requires Increasing(s)
    ensures forall i, j :: 0 <= i < j < |s| ==> Less(s[i], s[j])
    ensures Distinct(s)
    decreases |s|
  {
    if |s| > 1 {
      var t := s[1..];
      assert Increasing(t) by {
        forall i | 0 <= i < |t| - 1 ensures Less(t[i], t[i + 1]) {
          assert t[i] == s[i + 1] && t[i + 1] == s[i + 2];
        }
      }
      IncreasingDistinct(t);
      forall i, j | 0 <= i < j < |s| ensures Less(s[i], s[j]) {
        if i == 0 && j > 1 {
          assert Less(s[0], s[1]);
          assert Less(t[0], t[j - 1]);
          LessFromTransitive(s[0], s[1], s[j], 0);
        } else if i > 0 {
          assert Less(t[i - 1], t[j - 1]);
        }
      }
      forall i, j | 0 <= i < j < |s| ensures s[i] != s[j] {
        if s[i] == s[j] {
          LessFromIrreflexive(s[i], 0);
        }
      }
    }
  }

  /** A string built as `x + [c] + y` from two `c`-free parts holds `c`
      exactly once. */
  lemma CountJoined(x: string, c: char, y: string)
    requires c !in x && c !in y
    ensures Count(x + [c] + y, c) == 1
  {
    assert multiset(x + [c] + y) == multiset(x) + multiset{c} + multiset(y);
    assert multiset(x)[c] == 0 && multiset(y)[c] == 0;
  }

  /** A split has exactly one more piece than the string has separators. */
  lemma {:induction false} SplitCount(s: string, sep: char)
    ensures |Split(s, sep)| == Count(s, sep) + 1
    decreases |s|
  {
    if sep in s {
      var i := IndexOf(s, sep);
      SplitCount(s[i + 1..], sep);
      assert s == s[..i] + [sep] + s[i + 1..];
      assert multiset(s) == multiset(s[..i]) + multiset{sep} + multiset(s[i + 1..]);
      assert multiset(s[..i])[sep] == 0;
    } else {
      assert multiset(s)[sep] == 0;
    }
  }

  /** Python's `s.splitlines()` when `'\n'` is the only line boundary: the
      empty string has no lines and a final newline does not open an empty
      last line. */
  function SplitLines(s: string): (lines: seq<string>)
    ensures forall k :: 0 <= k < |lines| ==> '\n' !in lines[k]
  {
    if s == "" then []
    else
      var parts := Split(s, '\n');
      if parts[|parts| - 1] == "" then parts[..|parts| - 1] else parts
  }

  /** The lines, joined with `'\n'` and followed by the original trailing
      newline if any, give back `s`. */
  lemma SplitLinesRoundTrip(s: string)
    ensures s != "" && s[|s| - 1] == '\n' ==> Join(SplitLines(s), '\n') + "\n" == s
    ensures s == "" || s[|s| - 1] != '\n' ==> Join(SplitLines(s), '\n') == s
  {
    if s != "" {
      if s[|s| - 1] == '\n' {
        TerminatedRoundTrip(s);
      } else {
        assert SplitLines(s) == Split(s, '\n') by {
          LastPieceEmpty(s, '\n');
        }
        JoinSplit(s, '\n');
      }
    }
  }

  /** The round trip for contents that end with a newline: the empty piece
      after it is dropped, and the newline is restored by hand. */
  lemma TerminatedRoundTrip(s: string)
    requires s != "" && s[|s| - 1] == '\n'
    ensures Join(SplitLines(s), '\n') + "\n" == s
  {
    var parts := Split(s, '\n');
    assert parts[|parts| - 1] == "" by {
      LastPieceEmpty(s, '\n');
    }
    assert |parts| >= 2 by {
      SplitCount(s, '\n');
      assert s[|s| - 1] in multiset(s);
    }
    assert SplitLines(s) == parts[..|parts| - 1];
    JoinDropEmptyLast(parts, '\n');
    JoinSplit(s, '\n');
  }

  /** There is one line per newline, plus one for an unterminated last line. */
  lemma SplitLinesCount(s: string)
    ensures |SplitLines(s)| == Count(s, '\n') + (if s == "" || s[|s| - 1] == '\n' then 0 else 1)
  {
    if s != "" {
      SplitCount(s, '\n');
      LastPieceEmpty(s, '\n');
    } else {
      assert multiset(s)['\n'] == 0;
    }
  }

  /** The last piece of a split of `s` is the last piece of the split of
      what follows the first separator. */
  lemma SplitLastStep(s: string, sep: char, i: nat)
    requires sep in s && i == IndexOf(s, sep)
    ensures Split(s, sep)[|Split(s, sep)| - 1] == Split(s[i + 1..], sep)[|Split(s[i + 1..], sep)| - 1]
  {
    var parts := Split(s, sep);
    var tail := Split(s[i + 1..], sep);
    assert parts == [s[..i]] + tail;
    assert |parts| == |tail| + 1;
    assert parts[|parts| - 1] == ([s[..i]] + tail)[|tail|] == tail[|tail| - 1];
  }

  /** The last piece of a split is empty exactly when the string is empty or
      ends with the separator. */
  lemma {:induction false} LastPieceEmpty(s: string, sep: char)
    ensures Split(s, sep)[|Split(s, sep)| - 1] == "" <==> s == "" || s[|s| - 1] == sep
    decreases |s|
  {
    if sep in s {
      var i := IndexOf(s, sep);
      var rest := s[i + 1..];
      LastPieceEmpty(rest, sep);
      SplitLastStep(s, sep, i);
      if rest == "" {
        assert |s| == i + 1;
      } else {
        assert s[|s| - 1] == rest[|rest| - 1];
      }
    } else {
      assert Split(s, sep) == [s];
      if s != "" {
        assert s[|s| - 1] in s;
      }
    }
  }

  /** Dropping an empty last piece removes exactly the final separator. */
  lemma {:induction false} JoinDropEmptyLast(parts: seq<string>, sep: char)
    requires |parts| >= 2 && parts[|parts| - 1] == ""
    ensures Join(parts[..|parts| - 1], sep) + [sep] == Join(parts, sep)
    decreases |parts|
  {
    if |parts| == 2 {
      assert parts[..1] == [parts[0]];
      assert parts[1..] == [""];
    } else {
      var rest := parts[1..];
      JoinDropEmptyLast(rest, sep);
      var init := parts[..|parts| - 1];
      assert init[1..] == rest[..|rest| - 1];
    }
  }
}
