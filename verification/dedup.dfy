/**
  The combined-mode deduplicator (`appendIfUnique`): candidates are appended in
  order unless an already kept element is a duplicate of them. `dup(kept, candidate)`
  is the active equality rule, asked with the kept element first.
 */
module Dedup {
  import opened Seqs

  /** No kept element is a duplicate of one kept after it. */
  ghost predicate NoDuplicates<T>(dup: (T, T) -> bool, s: seq<T>) {
    forall i, j :: 0 <= i < j < |s| ==> !dup(s[i], s[j])
  }

  /** Some element of `s` is a duplicate of `x`. */
  predicate HasDuplicate<T>(dup: (T, T) -> bool, s: seq<T>, x: T) {
    exists i :: 0 <= i < |s| && dup(s[i], x)
  }

  /** `appendIfUnique`: append `x` unless it duplicates something already kept. */
  function AppendIfUnique<T>(dup: (T, T) -> bool, acc: seq<T>, x: T): (r: seq<T>)
    ensures HasDuplicate(dup, acc, x) ==> r == acc
    ensures !HasDuplicate(dup, acc, x) ==> r == acc + [x]
    ensures NoDuplicates(dup, acc) ==> NoDuplicates(dup, r)
  {
    if HasDuplicate(dup, acc, x) then acc else acc + [x]
  }

  /** `forEach(appendIfUnique)` over one pass. */
  function AppendAllUnique<T>(dup: (T, T) -> bool, acc: seq<T>, xs: seq<T>): (r: seq<T>)
    ensures |acc| <= |r| && r[..|acc|] == acc
    ensures IsSubsequence(r[|acc|..], xs)
    ensures NoDuplicates(dup, acc) ==> NoDuplicates(dup, r)
    ensures forall k :: 0 <= k < |xs| ==> xs[k] in r || HasDuplicate(dup, r, xs[k])
    decreases |xs|
  {
    if |xs| == 0 then acc
    else
      var next := AppendIfUnique(dup, acc, xs[0]);
      var r := AppendAllUnique(dup, next, xs[1..]);
      AppendAllUniqueStep(dup, acc, xs, next, r);
      r
  }

  lemma AppendAllUniqueStep<T>(dup: (T, T) -> bool, acc: seq<T>, xs: seq<T>, next: seq<T>, r: seq<T>)
    requires |xs| > 0 && next == AppendIfUnique(dup, acc, xs[0])
    requires |next| <= |r| && r[..|next|] == next
    requires IsSubsequence(r[|next|..], xs[1..])
    requires forall k :: 0 <= k < |xs[1..]| ==> xs[1..][k] in r || HasDuplicate(dup, r, xs[1..][k])
    ensures |acc| <= |r| && r[..|acc|] == acc
    ensures IsSubsequence(r[|acc|..], xs)
    ensures forall k :: 0 <= k < |xs| ==> xs[k] in r || HasDuplicate(dup, r, xs[k])
  {
    assert r[..|acc|] == next[..|acc|];
    if next == acc {
      SubsequenceOfTail(r[|acc|..], xs);
      var i :| 0 <= i < |acc| && dup(acc[i], xs[0]);
      assert r[i] == acc[i];
    } else {
      var tail := r[|acc|..];
      assert tail[0] == xs[0] && tail[1..] == r[|next|..];
      assert xs[0] == r[|acc|];
    }
    forall k | 1 <= k < |xs| ensures xs[k] in r || HasDuplicate(dup, r, xs[k]) {
      assert xs[1..][k - 1] == xs[k];
    }
  }

  /** Two passes in a row behave as one pass over their concatenation. */
  lemma {:induction false} AppendAllUniqueConcat<T>(dup: (T, T) -> bool, acc: seq<T>, a: seq<T>, b: seq<T>)
    ensures AppendAllUnique(dup, AppendAllUnique(dup, acc, a), b) == AppendAllUnique(dup, acc, a + b)
    decreases |a|
  {
    if |a| == 0 {
      assert a + b == b;
    } else {
      assert (a + b)[0] == a[0] && (a + b)[1..] == a[1..] + b;
      AppendAllUniqueConcat(dup, AppendIfUnique(dup, acc, a[0]), a[1..], b);
    }
  }

  /** Feeding one more candidate after a pass is one `appendIfUnique` step. */
  lemma AppendAllUniqueSnoc<T>(dup: (T, T) -> bool, acc: seq<T>, xs: seq<T>, x: T)
    ensures AppendAllUnique(dup, acc, xs + [x]) == AppendIfUnique(dup, AppendAllUnique(dup, acc, xs), x)
  {
    AppendAllUniqueConcat(dup, acc, xs, [x]);
    var before := AppendAllUnique(dup, acc, xs);
    assert [x][1..] == [];
    assert AppendAllUnique(dup, before, [x]) == AppendAllUnique(dup, AppendIfUnique(dup, before, x), []);
  }

  /** The elements kept after the first `k` candidates of `xs` have been fed in. */
  function KeptAfter<T>(dup: (T, T) -> bool, xs: seq<T>, k: int): seq<T>
    requires 0 <= k <= |xs|
  {
    AppendAllUnique(dup, [], xs[..k])
  }

  /** Candidate `k` meets the elements kept from the candidates before it. */
  lemma KeptAfterOne<T>(dup: (T, T) -> bool, xs: seq<T>, k: int)
    requires 0 <= k < |xs|
    ensures KeptAfter(dup, xs, k + 1) == AppendIfUnique(dup, KeptAfter(dup, xs, k), xs[k])
  {
    assert xs[..k + 1] == xs[..k] + [xs[k]];
    AppendAllUniqueSnoc(dup, [], xs[..k], xs[k]);
  }

  /** First-seen order: nothing is kept before any candidate is seen, and candidate
      `k` is appended exactly when nothing kept from the earlier candidates is a
      duplicate of it. Together these fix the kept sequence uniquely. */
  lemma KeptAfterStep<T>(dup: (T, T) -> bool, xs: seq<T>)
    ensures KeptAfter(dup, xs, 0) == []
    ensures KeptAfter(dup, xs, |xs|) == AppendAllUnique(dup, [], xs)
    ensures forall k :: 0 <= k < |xs| ==>
      KeptAfter(dup, xs, k + 1) ==
        if HasDuplicate(dup, KeptAfter(dup, xs, k), xs[k])
        then KeptAfter(dup, xs, k)
        else KeptAfter(dup, xs, k) + [xs[k]]
  {
    assert xs[..|xs|] == xs;
    forall k | 0 <= k < |xs|
      ensures KeptAfter(dup, xs, k + 1) == AppendIfUnique(dup, KeptAfter(dup, xs, k), xs[k])
    {
      KeptAfterOne(dup, xs, k);
    }
  }

  /** `searchByCombined`'s merge: three passes fed in order into one accumulator.
      The result keeps first-seen order across the passes, holds no duplicate pair,
      draws every element from some pass, and drops a candidate only when an
      equal one is kept. It is what one first-seen pass (`KeptAfterStep`) over
      the three passes in a row keeps. */
  function MergeUnique<T>(dup: (T, T) -> bool, a: seq<T>, b: seq<T>, c: seq<T>): (r: seq<T>)
    ensures r == KeptAfter(dup, a + b + c, |a + b + c|)
    ensures IsSubsequence(r, a + b + c)
    ensures NoDuplicates(dup, r)
    ensures forall k :: 0 <= k < |r| ==> r[k] in a || r[k] in b || r[k] in c
    ensures forall k :: 0 <= k < |a + b + c| ==> (a + b + c)[k] in r || HasDuplicate(dup, r, (a + b + c)[k])
  {
    var r := AppendAllUnique(dup, AppendAllUnique(dup, AppendAllUnique(dup, [], a), b), c);
    AppendAllUniqueConcat(dup, [], a, b);
    AppendAllUniqueConcat(dup, [], a + b, c);
    KeptAfterStep(dup, a + b + c);
    assert r[0..] == r;
    SubsequenceMembers(r, a + b + c);
    forall k | 0 <= k < |r| ensures r[k] in a || r[k] in b || r[k] in c {
      assert r[k] in a + b + c;
    }
    r
  }
}
