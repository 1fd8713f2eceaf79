/**
 The string operations the wrapper relies on, with Python's meaning:
 `str.startswith`, the leftmost search for a separator, `str.split(sep)`
 (non-overlapping, left to right) and `sep.join(parts)`.
 */
module Strings {

  /** Python's `s.startswith(prefix)`. */
  predicate StartsWith(s: string, prefix: string)
    ensures StartsWith(s, prefix) <==> |prefix| <= |s| && forall i :: 0 <= i < |prefix| ==> s[i] == prefix[i]
  {
    |prefix| <= |s| && s[..|prefix|] == prefix
  }

  /** `sep` occurs in `s` starting at position `i`. */
  predicate OccursAt(s: string, sep: string, i: nat) {
    i + |sep| <= |s| && s[i..i + |sep|] == sep
  }

  /** Python's `sep in s`. */
  predicate Contains(s: string, sep: string) {
    exists i: nat | i + |sep| <= |s| :: OccursAt(s, sep, i)
  }

  /** Shifting the search window by one character. */
  lemma OccursAtTail(s: string, sep: string, j: nat)
    requires |s| > 0
    ensures OccursAt(s, sep, j + 1) <==> OccursAt(s[1..], sep, j)
  {
  }

  /** Python's `s.find(sep)`: the leftmost occurrence of `sep`, or -1. */
  function IndexOf(s: string, sep: string): (r: int)
    requires sep != []
    ensures r < 0 <==> !Contains(s, sep)
    ensures r >= 0 ==> OccursAt(s, sep, r)
    ensures r >= 0 ==> forall j: nat :: j < r ==> !OccursAt(s, sep, j)
    decreases |s|
  {
    if |s| < |sep| then
      -1
    else if s[..|sep|] == sep then
      assert OccursAt(s, sep, 0);
      0
    else
      var k := IndexOf(s[1..], sep);
      assert forall j: nat :: OccursAt(s, sep, j + 1) <==> OccursAt(s[1..], sep, j) by {
        forall j: nat ensures OccursAt(s, sep, j + 1) <==> OccursAt(s[1..], sep, j) {
          OccursAtTail(s, sep, j);
        }
      }
      assert !OccursAt(s, sep, 0);
      assert forall i: nat :: OccursAt(s, sep, i) ==> i > 0 && OccursAt(s[1..], sep, i - 1);
      if k < 0 then -1 else k + 1
  }

  /** A leftmost occurrence is determined by being an occurrence with none before it. */
  lemma IndexOfIs(s: string, sep: string, k: nat)
    requires sep != []
    requires OccursAt(s, sep, k)
    requires forall j: nat :: j < k ==> !OccursAt(s, sep, j)
    ensures IndexOf(s, sep) == k
  {
  }

  /** Python's `s.split(sep)`: the pieces between non-overlapping occurrences, left to right. */
  function Split(s: string, sep: string): (parts: seq<string>)
    requires sep != []
    ensures |parts| >= 1
    decreases |s|
  {
    var i := IndexOf(s, sep);
    if i < 0 then [s] else [s[..i]] + Split(s[i + |sep|..], sep)
  }

  /** Splitting at a known leftmost occurrence. */
  lemma SplitAtFirst(a: string, b: string, sep: string)
    requires sep != [] && IndexOf(a + sep + b, sep) == |a|
    ensures Split(a + sep + b, sep) == [a] + Split(b, sep)
  {
    var s := a + sep + b;
    assert s[..|a|] == a;
    assert s[|a| + |sep|..] == b;
  }

  /** Python's `sep.join(parts)`. */
  function Join(parts: seq<string>, sep: string): string
    requires |parts| >= 1
  {
    if |parts| == 1 then parts[0] else parts[0] + sep + Join(parts[1..], sep)
  }

  /** The last element of a non-empty list, Python's `parts[-1]`. */
  function Last(parts: seq<string>): string
    requires |parts| >= 1
  {
    parts[|parts| - 1]
  }

  /** A string is the part before a window, the window and the part after it. */
  lemma CutAround(s: string, i: nat, n: nat)
    requires i + n <= |s|
    ensures s == s[..i] + s[i..i + n] + s[i + n..]
  {
  }

  /** Joining a list with a first element puts the separator after it. */
  lemma JoinCons(first: string, tail: seq<string>, sep: string)
    requires |tail| >= 1
    ensures Join([first] + tail, sep) == first + sep + Join(tail, sep)
  {
    assert ([first] + tail)[1..] == tail;
  }

  /** Joining the pieces of a split with the same separator gives back the string. */
  lemma {:induction false} JoinSplit(s: string, sep: string)
    requires sep != []
    ensures Join(Split(s, sep), sep) == s
    decreases |s|
  {
    var i := IndexOf(s, sep);
    if i >= 0 {
      var rest := s[i + |sep|..];
      JoinSplit(rest, sep);
      JoinCons(s[..i], Split(rest, sep), sep);
      CutAround(s, i, |sep|);
    }
  }

  /** Nothing before the leftmost occurrence contains the separator. */
  lemma BeforeFirstLacksSeparator(s: string, sep: string)
    requires sep != [] && IndexOf(s, sep) >= 0
    ensures !Contains(s[..IndexOf(s, sep)], sep)
  {
    var i := IndexOf(s, sep);
    forall j: nat | OccursAt(s[..i], sep, j) ensures false {
      assert s[..i][j..j + |sep|] == s[j..j + |sep|];
      assert OccursAt(s, sep, j);
    }
  }

  /** No piece of a split contains the separator. */
  lemma {:induction false} SplitPiecesLackSeparator(s: string, sep: string)
    requires sep != []
    ensures forall k :: 0 <= k < |Split(s, sep)| ==> !Contains(Split(s, sep)[k], sep)
    decreases |s|
  {
    var i := IndexOf(s, sep);
    if i >= 0 {
      var rest := s[i + |sep|..];
      SplitPiecesLackSeparator(rest, sep);
      BeforeFirstLacksSeparator(s, sep);
      var parts := Split(s, sep);
      assert parts == [s[..i]] + Split(rest, sep);
      forall k | 0 <= k < |parts| ensures !Contains(parts[k], sep) {
        if k > 0 {
          assert parts[k] == Split(rest, sep)[k - 1];
        }
      }
    }
  }

  /** A string without the separator splits into itself alone. */
  lemma SplitWithoutSeparator(s: string, sep: string)
    requires sep != [] && !Contains(s, sep)
    ensures Split(s, sep) == [s]
  {
  }

  /** For a one-character separator, containing it is membership of the character. */
  lemma ContainsChar(s: string, c: char)
    ensures Contains(s, [c]) <==> c in s
  {
    if c in s {
      var i :| 0 <= i < |s| && s[i] == c;
      assert OccursAt(s, [c], i);
    }
    if Contains(s, [c]) {
      var i: nat :| i + 1 <= |s| && OccursAt(s, [c], i);
      assert s[i] == s[i..i + 1][0];
    }
  }
}
