/** Order-preserving filtering of sequences, the shape of every search strategy. */
module Seqs {

  /** Strictly increasing positions. */
  ghost predicate Increasing(ix: seq<int>) {
    forall a, b :: 0 <= a < b < |ix| ==> ix[a] < ix[b]
  }

  /** Every position shifted one to the right. */
  function Shift(ix: seq<int>): (r: seq<int>)
    ensures |r| == |ix|
    ensures forall k :: 0 <= k < |ix| ==> r[k] == ix[k] + 1
  {
    seq(|ix|, k requires 0 <= k < |ix| => ix[k] + 1)
  }

  /** The positions of `s`, in order, whose element satisfies `p`. */
  function MatchIndices<T>(s: seq<T>, p: T -> bool): (ix: seq<int>)
    ensures Increasing(ix)
    ensures forall k :: 0 <= k < |ix| ==> 0 <= ix[k] < |s| && p(s[ix[k]])
    ensures forall i :: 0 <= i < |s| && p(s[i]) ==> i in ix
    decreases |s|
  {
    if |s| == 0 then []
    else
      var rest := MatchIndices(s[1..], p);
      ShiftSound(s, p, rest);
      ShiftComplete(s, p, rest);
      if p(s[0]) then
        ZeroThenIncreasing(Shift(rest));
        [0] + Shift(rest)
      else Shift(rest)
  }

  lemma ShiftSound<T>(s: seq<T>, p: T -> bool, rest: seq<int>)
    requires |s| > 0
    requires Increasing(rest)
    requires forall k :: 0 <= k < |rest| ==> 0 <= rest[k] < |s| - 1 && p(s[1..][rest[k]])
    ensures Increasing(Shift(rest))
    ensures forall k :: 0 <= k < |rest| ==> 1 <= Shift(rest)[k] < |s| && p(s[Shift(rest)[k]])
  {
    var sh := Shift(rest);
    forall k | 0 <= k < |sh| ensures 1 <= sh[k] < |s| && p(s[sh[k]]) {
      assert s[1..][rest[k]] == s[sh[k]];
    }
  }

  lemma ShiftComplete<T>(s: seq<T>, p: T -> bool, rest: seq<int>)
    requires |s| > 0
    requires forall i :: 0 <= i < |s| - 1 && p(s[1..][i]) ==> i in rest
    ensures forall i :: 1 <= i < |s| && p(s[i]) ==> i in Shift(rest)
  {
    var sh := Shift(rest);
    forall i | 1 <= i < |s| && p(s[i]) ensures i in sh {
      assert s[1..][i - 1] == s[i];
      var k :| 0 <= k < |rest| && rest[k] == i - 1;
      assert sh[k] == i;
    }
  }

  lemma ZeroThenIncreasing(sh: seq<int>)
    requires Increasing(sh)
    requires forall k :: 0 <= k < |sh| ==> 1 <= sh[k]
    ensures Increasing([0] + sh)
  {
    var z := [0] + sh;
    forall a, b | 0 <= a < b < |z| ensures z[a] < z[b] {
      assert z[b] == sh[b - 1];
      if a > 0 {
        assert z[a] == sh[a - 1];
      }
    }
  }

  /** `s` read at the positions `ix`. */
  function Select<T>(s: seq<T>, ix: seq<int>): (r: seq<T>)
    requires forall k :: 0 <= k < |ix| ==> 0 <= ix[k] < |s|
    ensures |r| == |ix|
    ensures forall k :: 0 <= k < |ix| ==> r[k] == s[ix[k]]
  {
    seq(|ix|, k requires 0 <= k < |ix| => s[ix[k]])
  }

  /** Swift's `filter`: the elements of `s` satisfying `p`, in their original order. */
  function Filter<T>(s: seq<T>, p: T -> bool): (r: seq<T>)
    ensures |r| <= |s|
    ensures forall k :: 0 <= k < |r| ==> p(r[k])
    decreases |s|
  {
    if |s| == 0 then []
    else if p(s[0]) then [s[0]] + Filter(s[1..], p)
    else Filter(s[1..], p)
  }

  /** The filter result is exactly `s` read at the matching positions, in order:
      nothing that fails the test, nothing missing, nothing reordered. */
  lemma {:induction false} FilterIsSelection<T>(s: seq<T>, p: T -> bool)
    ensures Filter(s, p) == Select(s, MatchIndices(s, p))
    decreases |s|
  {
    if |s| > 0 {
      FilterIsSelection(s[1..], p);
      var rest := MatchIndices(s[1..], p);
      var sh := Shift(rest);
      var tail := Select(s, sh);
      assert tail == Select(s[1..], rest) by {
        forall k | 0 <= k < |sh| ensures tail[k] == Select(s[1..], rest)[k] {
          assert s[1..][rest[k]] == s[sh[k]];
        }
      }
      if p(s[0]) {
        assert Select(s, [0] + sh) == [s[0]] + tail;
      }
    }
  }

  /** Filtering distributes over concatenation: matches of `a` come before matches of `b`. */
  lemma {:induction false} FilterAppend<T>(a: seq<T>, b: seq<T>, p: T -> bool)
    ensures Filter(a + b, p) == Filter(a, p) + Filter(b, p)
    decreases |a|
  {
    if |a| > 0 {
      assert (a + b)[1..] == a[1..] + b;
      FilterAppend(a[1..], b, p);
    } else {
      assert a + b == b;
    }
  }

  /** A filter keeps an element iff it satisfies the predicate. */
  lemma FilterMembership<T>(s: seq<T>, p: T -> bool, x: T)
    ensures x in Filter(s, p) <==> x in s && p(x)
  {
    var r := Filter(s, p);
    var ix := MatchIndices(s, p);
    FilterIsSelection(s, p);
    if x in s && p(x) {
      var i :| 0 <= i < |s| && s[i] == x;
      var k :| 0 <= k < |ix| && ix[k] == i;
      assert r[k] == x;
    }
  }

  /** `a` can be obtained from `b` by deleting elements. */
  ghost predicate IsSubsequence<T>(a: seq<T>, b: seq<T>)
    decreases |b|
  {
    |a| == 0 || (|b| > 0 && ((a[0] == b[0] && IsSubsequence(a[1..], b[1..])) || IsSubsequence(a, b[1..])))
  }

  lemma {:induction false} SubsequenceOfTail<T>(a: seq<T>, b: seq<T>)
    requires |b| > 0 && IsSubsequence(a, b[1..])
    ensures IsSubsequence(a, b)
  {
  }

  lemma {:induction false} SubsequenceMembers<T>(a: seq<T>, b: seq<T>)
    requires IsSubsequence(a, b)
    ensures forall x :: x in a ==> x in b
    decreases |b|
  {
    if |a| > 0 {
      if a[0] == b[0] && IsSubsequence(a[1..], b[1..]) {
        SubsequenceMembers(a[1..], b[1..]);
        assert forall x :: x in a ==> x == a[0] || x in a[1..];
      } else {
        SubsequenceMembers(a, b[1..]);
      }
    }
  }
}
