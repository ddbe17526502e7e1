/**
  String services the engine relies on: substring search, the first-occurrence
  offset behind `range(of:)`, case folding, the UTF-16 offset of a position and
  the lexicographic order standing in for `localizedCaseInsensitiveCompare`.
  Case folding is an abstract per-character function supplied by the caller.
 */
module Text {
  import opened Optional

  /** Does `needle` occur in `hay` at offset `i`? */
  predicate OccursAt(hay: string, needle: string, i: int) {
    0 <= i && i + |needle| <= |hay| && hay[i..i + |needle|] == needle
  }

  /** The least offset `>= from` where `needle` occurs in `hay`. */
  function FirstOccurrenceFrom(hay: string, needle: string, from: nat): (r: Option<int>)
    requires from <= |hay| + 1
    ensures r.Some? ==> from <= r.value && OccursAt(hay, needle, r.value)
    ensures r.Some? ==> forall j :: from <= j < r.value ==> !OccursAt(hay, needle, j)
    ensures r.None? ==> forall j :: from <= j ==> !OccursAt(hay, needle, j)
    decreases |hay| + 1 - from
  {
    if from + |needle| > |hay| then None
    else if hay[from..from + |needle|] == needle then Some(from)
    else FirstOccurrenceFrom(hay, needle, from + 1)
  }

  /** The offset of the first occurrence of `needle` in `hay`, None when there is none. */
  function FirstOccurrence(hay: string, needle: string): (r: Option<int>)
    ensures r.Some? ==> OccursAt(hay, needle, r.value)
    ensures r.Some? ==> forall j :: 0 <= j < r.value ==> !OccursAt(hay, needle, j)
    ensures r.None? <==> forall j :: !OccursAt(hay, needle, j)
  {
    FirstOccurrenceFrom(hay, needle, 0)
  }

  /** Substring containment: `needle` occurs somewhere in `hay`. */
  predicate Contains(hay: string, needle: string) {
    FirstOccurrence(hay, needle).Some?
  }

  lemma ContainsMeansOccurs(hay: string, needle: string)
    ensures Contains(hay, needle) <==> exists j :: OccursAt(hay, needle, j)
  {
    if !Contains(hay, needle) {
      assert forall j :: !OccursAt(hay, needle, j);
    }
  }

  /** The string with every character case-folded. */
  function Fold(fold: char -> char, s: string): (r: string)
    ensures |r| == |s|
    ensures forall i :: 0 <= i < |s| ==> r[i] == fold(s[i])
  {
    seq(|s|, i requires 0 <= i < |s| => fold(s[i]))
  }

  /** Case-insensitive containment (`localizedCaseInsensitiveContains`). */
  predicate CaseInsensitiveContains(fold: char -> char, hay: string, needle: string) {
    Contains(Fold(fold, hay), Fold(fold, needle))
  }

  /** Number of UTF-16 code units a code point takes. */
  function Utf16Width(c: char): int {
    if c as int < 0x10000 then 1 else 2
  }

  /** `utf16Offset`: the UTF-16 length of the first `i` characters of `s`. */
  function Utf16Offset(s: string, i: int): (r: int)
    requires 0 <= i <= |s|
    ensures i <= r <= 2 * i
    ensures forall j :: 0 <= j < i ==> Utf16Offset(s, j) < r
  {
    if i == 0 then 0 else Utf16Offset(s, i - 1) + Utf16Width(s[i - 1])
  }

  /** Strict lexicographic order on code points. */
  predicate LexLess(a: string, b: string)
    decreases |a|
  {
    if |a| == 0 then |b| > 0
    else if |b| == 0 then false
    else if a[0] < b[0] then true
    else a[0] == b[0] && LexLess(a[1..], b[1..])
  }

  lemma {:induction false} LexLessIrreflexive(a: string)
    ensures !LexLess(a, a)
    decreases |a|
  {
    if |a| > 0 {
      LexLessIrreflexive(a[1..]);
    }
  }

  lemma {:induction false} LexLessTransitive(a: string, b: string, c: string)
    requires LexLess(a, b) && LexLess(b, c)
    ensures LexLess(a, c)
    decreases |a|
  {
    if |a| > 0 && a[0] == b[0] && b[0] == c[0] {
      LexLessTransitive(a[1..], b[1..], c[1..]);
    }
  }

  lemma {:induction false} LexLessTotal(a: string, b: string)
    ensures a == b || LexLess(a, b) || LexLess(b, a)
    decreases |a|
  {
    if |a| > 0 && |b| > 0 && a[0] == b[0] {
      LexLessTotal(a[1..], b[1..]);
      if a[1..] == b[1..] {
        assert a == [a[0]] + a[1..] && b == [b[0]] + b[1..];
      }
    }
  }

  /** Lexicographic order is a strict total order: asymmetric, transitive and total. */
  lemma LexLessStrictTotalOrder()
    ensures forall a, b :: LexLess(a, b) ==> !LexLess(b, a)
    ensures forall a, b, c :: LexLess(a, b) && LexLess(b, c) ==> LexLess(a, c)
    ensures forall a, b :: a == b || LexLess(a, b) || LexLess(b, a)
  {
    forall a, b | LexLess(a, b) ensures !LexLess(b, a) {
      if LexLess(b, a) {
        LexLessTransitive(a, b, a);
        LexLessIrreflexive(a);
      }
    }
    forall a, b, c | LexLess(a, b) && LexLess(b, c) ensures LexLess(a, c) {
      LexLessTransitive(a, b, c);
    }
    forall a, b ensures a == b || LexLess(a, b) || LexLess(b, a) {
      LexLessTotal(a, b);
    }
  }
}
