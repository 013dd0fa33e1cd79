/**
 * Lines of text. `Join` is Python's `sep.join(lines)` and `Split` is
 * `s.split(sep)` for a one-character separator; `IsSubsequence` is the
 * "same elements, same relative order, some deleted" relation between lists.
 */
module Text {

  /** True if no line of `lines` contains `c`. */
  predicate AllFree(lines: seq<string>, c: char)
  {
    forall i :: 0 <= i < |lines| ==> c !in lines[i]
  }

  /** `sep.join(lines)`: the lines with one `sep` between neighbours. */
  function Join(lines: seq<string>, sep: char): string
  {
    if |lines| == 0 then ""
    else if |lines| == 1 then lines[0]
    else lines[0] + [sep] + Join(lines[1..], sep)
  }

  /** Position of the first `c` in `s`. */
  function IndexOf(s: string, c: char): (i: nat)
    requires c in s
    ensures i < |s| && s[i] == c
    ensures c !in s[..i]
  {
    if s[0] == c then 0
    else
      var j := IndexOf(s[1..], c);
      assert s[..1 + j] == [s[0]] + s[1..][..j];
      1 + j
  }

  /** `s.split(sep)`: the pieces between separators; there is always at least one. */
  function Split(s: string, sep: char): (pieces: seq<string>)
    ensures |pieces| >= 1
    ensures AllFree(pieces, sep)
    ensures sep !in s <==> pieces == [s]
    decreases |s|
  {
    if sep !in s then [s]
    else
      var i := IndexOf(s, sep);
      [s[..i]] + Split(s[i + 1..], sep)
  }

  /** Any position holding the first `c` is the one `IndexOf` finds. */
  lemma IndexOfIsFirst(s: string, c: char, k: nat)
    requires k < |s| && s[k] == c && c !in s[..k]
    ensures IndexOf(s, c) == k
  {
    var i := IndexOf(s, c);
  }

  /** A joined text begins with its first line, followed by `sep` when more lines follow. */
  lemma JoinStartsWithFirst(lines: seq<string>, sep: char)
    requires |lines| >= 1
    ensures |Join(lines, sep)| >= |lines[0]|
    ensures Join(lines, sep)[..|lines[0]|] == lines[0]
    ensures |lines| == 1 ==> Join(lines, sep) == lines[0]
    ensures |lines| > 1 ==> |Join(lines, sep)| > |lines[0]| && Join(lines, sep)[|lines[0]|] == sep
    ensures |lines| > 1 ==> Join(lines, sep)[|lines[0]| + 1..] == Join(lines[1..], sep)
  {
  }

  /** A joined text of two or more lines is at least as long as its first two lines and a separator. */
  lemma {:induction false} JoinLengthAtLeastTwo(lines: seq<string>, sep: char)
    requires |lines| >= 2
    ensures |Join(lines, sep)| >= |lines[0]| + 1 + |lines[1]|
  {
    JoinStartsWithFirst(lines[1..], sep);
  }

  /** Splitting a joined text gives back the lines, provided none of them contains the separator. */
  lemma {:induction false} SplitJoin(lines: seq<string>, sep: char)
    requires |lines| >= 1
    requires AllFree(lines, sep)
    ensures Split(Join(lines, sep), sep) == lines
    decreases |lines|
  {
    if |lines| > 1 {
      var s := Join(lines, sep);
      var first := lines[0];
      JoinStartsWithFirst(lines, sep);
      assert sep !in first;
      IndexOfIsFirst(s, sep, |first|);
      SplitJoin(lines[1..], sep);
      assert lines == [first] + lines[1..];
    }
  }

  /**
   * True if `a` is `b` with some elements deleted and the rest in their
   * original order. Matching is greedy from the back.
   */
  predicate IsSubsequence<T(==)>(a: seq<T>, b: seq<T>)
    decreases |b|
  {
    if a == [] then true
    else if b == [] then false
    else if a[|a| - 1] == b[|b| - 1] then IsSubsequence(a[..|a| - 1], b[..|b| - 1])
    else IsSubsequence(a, b[..|b| - 1])
  }

  /** Deleting the last element of a subsequence leaves a subsequence. */
  lemma {:induction false} SubsequenceDropLast<T>(a: seq<T>, b: seq<T>)
    requires |a| >= 1 && IsSubsequence(a, b)
    ensures IsSubsequence(a[..|a| - 1], b)
    decreases |b|
  {
    var a', b' := a[..|a| - 1], b[..|b| - 1];
    if a' != [] {
      if a[|a| - 1] == b[|b| - 1] {
        if a'[|a'| - 1] == b[|b| - 1] {
          SubsequenceDropLast(a', b');
        }
      } else {
        SubsequenceDropLast(a, b');
        if a'[|a'| - 1] == b[|b| - 1] {
          SubsequenceDropLast(a', b');
        }
      }
    }
  }

  /** Appending to the longer list keeps a subsequence a subsequence. */
  lemma SubsequenceExtend<T>(a: seq<T>, b: seq<T>, x: T)
    requires IsSubsequence(a, b)
    ensures IsSubsequence(a, b + [x])
  {
    assert (b + [x])[..|b|] == b;
    if a != [] && a[|a| - 1] == x {
      SubsequenceDropLast(a, b);
    }
  }

  /** Appending the same element to both lists keeps a subsequence a subsequence. */
  lemma SubsequenceAppendBoth<T>(a: seq<T>, b: seq<T>, x: T)
    requires IsSubsequence(a, b)
    ensures IsSubsequence(a + [x], b + [x])
  {
    assert (a + [x])[..|a|] == a;
    assert (b + [x])[..|b|] == b;
  }

  /** Every element of a subsequence is an element of the longer list. */
  lemma {:induction false} SubsequenceMembers<T>(a: seq<T>, b: seq<T>)
    requires IsSubsequence(a, b)
    ensures forall x :: x in a ==> x in b
    decreases |b|
  {
    if a != [] {
      var b' := b[..|b| - 1];
      assert b == b' + [b[|b| - 1]];
      if a[|a| - 1] == b[|b| - 1] {
        var a' := a[..|a| - 1];
        SubsequenceMembers(a', b');
        assert a == a' + [a[|a| - 1]];
      } else {
        SubsequenceMembers(a, b');
      }
    }
  }
}
