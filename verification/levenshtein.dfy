/**
  Levenshtein edit distance with case-insensitive character comparison:
  deletion, insertion and substitution each cost 1, no transposition.
  `lower` stands for Swift's `Character.lowercased()`.
 */
module Levenshtein {

  /** Substitution cost: free iff the lowercased characters are equal. */
  function Cost(lower: char -> char, a: char, b: char): int {
    if lower(a) == lower(b) then 0 else 1
  }

  function Min3(a: int, b: int, c: int): (m: int)
    ensures m <= a && m <= b && m <= c
    ensures m == a || m == b || m == c
  {
    if a <= b && a <= c then a else if b <= c then b else c
  }

  /** The recursive definition: distance between the first `i` characters of `s1`
      and the first `j` characters of `s2`. */
  function Dist(lower: char -> char, s1: string, s2: string, i: int, j: int): int
    requires 0 <= i <= |s1| && 0 <= j <= |s2|
    decreases i + j, 1
  {
    if i == 0 then j
    else if j == 0 then i
    else DistStep(lower, s1, s2, i, j)
  }

  /** The recurrence for two non-empty prefixes: the cheapest of deleting, inserting
      and substituting (free when the last characters agree up to case). */
  function DistStep(lower: char -> char, s1: string, s2: string, i: int, j: int): int
    requires 0 < i <= |s1| && 0 < j <= |s2|
    decreases i + j, 0
  {
    Min3(Dist(lower, s1, s2, i - 1, j) + 1,
         Dist(lower, s1, s2, i, j - 1) + 1,
         Dist(lower, s1, s2, i - 1, j - 1) + Cost(lower, s1[i - 1], s2[j - 1]))
  }

  /** Edit distance between two whole strings. */
  function Distance(lower: char -> char, s1: string, s2: string): int {
    Dist(lower, s1, s2, |s1|, |s2|)
  }

  /** `row` holds the distances from the first `i` characters of `s1` to each prefix of `s2`. */
  ghost predicate IsRow(lower: char -> char, s1: string, s2: string, row: seq<int>, i: int)
    requires 0 <= i <= |s1| && |row| <= |s2| + 1
  {
    forall b :: 0 <= b < |row| ==> row[b] == Dist(lower, s1, s2, i, b)
  }

  /** `levenshteinDistance`: the early returns for empty strings, then the
      (m+1) x (n+1) matrix filled row by row; Swift's nested arrays are values,
      so the matrix is a sequence of rows. */
  method LevenshteinDistance(lower: char -> char, s1: string, s2: string) returns (d: int)
    ensures |s1| == 0 ==> d == |s2|
    ensures |s2| == 0 ==> d == |s1|
    ensures d == Distance(lower, s1, s2)
  {
    var m := |s1|;
    var n := |s2|;
    if m == 0 { return n; }
    if n == 0 { return m; }
    var matrix: seq<seq<int>> := [seq(n + 1, b => b)];
    var i := 1;
    while i <= m
      invariant 1 <= i <= m + 1
      invariant |matrix| == i
      invariant forall a :: 0 <= a < i ==> |matrix[a]| == n + 1 && IsRow(lower, s1, s2, matrix[a], a)
    {
      var prev := matrix[i - 1];
      assert |prev| == n + 1 && IsRow(lower, s1, s2, prev, i - 1);
      var row := [i];
      var j := 1;
      while j <= n
        invariant 1 <= j <= n + 1
        invariant |row| == j
        invariant IsRow(lower, s1, s2, row, i)
      {
        var cost := if lower(s1[i - 1]) == lower(s2[j - 1]) then 0 else 1;
        var next := Min3(prev[j] + 1, row[j - 1] + 1, prev[j - 1] + cost);
        assert next == Dist(lower, s1, s2, i, j);
        row := row + [next];
        j := j + 1;
      }
      matrix := matrix + [row];
      i := i + 1;
    }
    d := matrix[m][n];
  }

  /** The distance is at most the longer length: substitute along the shorter one,
      then insert or delete the rest. */
  lemma {:induction false} DistUpper(lower: char -> char, s1: string, s2: string, i: int, j: int)
    requires 0 <= i <= |s1| && 0 <= j <= |s2|
    ensures Dist(lower, s1, s2, i, j) <= (if i < j then j else i)
    decreases i + j
  {
    if i > 0 && j > 0 {
      DistUpper(lower, s1, s2, i - 1, j - 1);
    }
  }

  /** The distance is at least the length difference, so never negative. */
  lemma {:induction false} DistLower(lower: char -> char, s1: string, s2: string, i: int, j: int)
    requires 0 <= i <= |s1| && 0 <= j <= |s2|
    ensures i - j <= Dist(lower, s1, s2, i, j) && j - i <= Dist(lower, s1, s2, i, j)
    decreases i + j
  {
    if i > 0 && j > 0 {
      DistLower(lower, s1, s2, i - 1, j);
      DistLower(lower, s1, s2, i, j - 1);
      DistLower(lower, s1, s2, i - 1, j - 1);
    }
  }

  lemma DistanceBounds(lower: char -> char, s1: string, s2: string)
    ensures |s1| - |s2| <= Distance(lower, s1, s2) && |s2| - |s1| <= Distance(lower, s1, s2)
    ensures Distance(lower, s1, s2) <= (if |s1| < |s2| then |s2| else |s1|)
  {
    DistLower(lower, s1, s2, |s1|, |s2|);
    DistUpper(lower, s1, s2, |s1|, |s2|);
  }

  /** Two prefixes are the same up to case. */
  ghost predicate SameUpToCase(lower: char -> char, s1: string, s2: string, i: int, j: int)
    requires 0 <= i <= |s1| && 0 <= j <= |s2|
  {
    i == j && forall k :: 0 <= k < i ==> lower(s1[k]) == lower(s2[k])
  }

  /** Distances are never negative. */
  lemma DistNonNegative(lower: char -> char, s1: string, s2: string, i: int, j: int)
    requires 0 <= i <= |s1| && 0 <= j <= |s2|
    ensures 0 <= Dist(lower, s1, s2, i, j)
  {
    DistLower(lower, s1, s2, i, j);
  }

  lemma SameUpToCaseStep(lower: char -> char, s1: string, s2: string, i: int, j: int)
    requires 0 < i <= |s1| && 0 < j <= |s2|
    ensures SameUpToCase(lower, s1, s2, i, j) <==>
      SameUpToCase(lower, s1, s2, i - 1, j - 1) && lower(s1[i - 1]) == lower(s2[j - 1])
  {
  }

  lemma {:induction false} DistZeroIff(lower: char -> char, s1: string, s2: string, i: int, j: int)
    requires 0 <= i <= |s1| && 0 <= j <= |s2|
    ensures Dist(lower, s1, s2, i, j) == 0 <==> SameUpToCase(lower, s1, s2, i, j)
    decreases i + j
  {
    if i > 0 && j > 0 {
      var del := Dist(lower, s1, s2, i - 1, j);
      var ins := Dist(lower, s1, s2, i, j - 1);
      var diag := Dist(lower, s1, s2, i - 1, j - 1);
      var cost := Cost(lower, s1[i - 1], s2[j - 1]);
      DistNonNegative(lower, s1, s2, i - 1, j);
      DistNonNegative(lower, s1, s2, i, j - 1);
      DistNonNegative(lower, s1, s2, i - 1, j - 1);
      assert Dist(lower, s1, s2, i, j) == Min3(del + 1, ins + 1, diag + cost);
      assert Dist(lower, s1, s2, i, j) == 0 <==> diag == 0 && cost == 0;
      DistZeroIff(lower, s1, s2, i - 1, j - 1);
      SameUpToCaseStep(lower, s1, s2, i, j);
    }
  }

  /** Distance zero exactly for strings equal up to case; in particular every string
      is at distance zero from itself. */
  lemma DistanceZeroIff(lower: char -> char, s1: string, s2: string)
    ensures Distance(lower, s1, s2) == 0 <==>
      |s1| == |s2| && forall k :: 0 <= k < |s1| ==> lower(s1[k]) == lower(s2[k])
    ensures Distance(lower, s1, s1) == 0
  {
    DistZeroIff(lower, s1, s2, |s1|, |s2|);
    DistZeroIff(lower, s1, s1, |s1|, |s1|);
  }

  lemma {:induction false} DistSymmetric(lower: char -> char, s1: string, s2: string, i: int, j: int)
    requires 0 <= i <= |s1| && 0 <= j <= |s2|
    ensures Dist(lower, s1, s2, i, j) == Dist(lower, s2, s1, j, i)
    decreases i + j
  {
    if i > 0 && j > 0 {
      DistSymmetric(lower, s1, s2, i - 1, j);
      DistSymmetric(lower, s1, s2, i, j - 1);
      DistSymmetric(lower, s1, s2, i - 1, j - 1);
      var del := Dist(lower, s1, s2, i - 1, j) + 1;
      var ins := Dist(lower, s1, s2, i, j - 1) + 1;
      var sub := Dist(lower, s1, s2, i - 1, j - 1) + Cost(lower, s1[i - 1], s2[j - 1]);
      assert Cost(lower, s1[i - 1], s2[j - 1]) == Cost(lower, s2[j - 1], s1[i - 1]);
      assert Dist(lower, s2, s1, j, i) == Min3(ins, del, sub);
      assert Min3(ins, del, sub) == Min3(del, ins, sub);
    }
  }

  /** The distance does not depend on the order of its arguments. */
  lemma DistanceSymmetric(lower: char -> char, s1: string, s2: string)
    ensures Distance(lower, s1, s2) == Distance(lower, s2, s1)
  {
    DistSymmetric(lower, s1, s2, |s1|, |s2|);
  }
}
