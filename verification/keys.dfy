/**
  The two search keys derived from a string: the chosung key (the leading
  consonant of every syllable, other characters dropped) and the decomposed key
  (every syllable split into its jamo, other characters kept), and the
  `isPureChosung` test on queries.
 */
module Keys {
  import opened Optional
  import opened Jamo

  /** Number of syllables in `s`. */
  function SyllableCount(s: string): nat {
    if |s| == 0 then 0 else (if IsValidHangulUnicode(s[0] as int) then 1 else 0) + SyllableCount(s[1..])
  }

  /** The `compactMap` step of the chosung key: the lead jamo of a syllable, nothing otherwise. */
  function ChosungOf(c: char): (r: string)
    ensures |r| <= 1
  {
    match ChosungIndex(c)
    case Some(i) => [Leads[i]]
    case None => []
  }

  /** `isPureChosung`: every character of `s` is one of the 19 leading consonants. */
  function IsPureChosung(s: string): (b: bool)
    ensures b <==> forall k :: 0 <= k < |s| ==> s[k] in Leads
  {
    if |s| == 0 then true
    else s[0] in Leads && IsPureChosung(s[1..])
  }

  /** The chosung key of a string: one lead jamo per syllable, in order. */
  function ChosungKey(s: string): (r: string)
    ensures |r| == SyllableCount(s) <= |s|
    ensures IsPureChosung(r)
  {
    if |s| == 0 then [] else ChosungOf(s[0]) + ChosungKey(s[1..])
  }

  /** The decomposed key of a string: every character run through `DecomposeKorean`. */
  function DecomposedKey(s: string): (r: string)
    ensures |s| + SyllableCount(s) <= |r| <= |s| + 2 * SyllableCount(s)
  {
    if |s| == 0 then [] else DecomposeKorean(s[0]) + DecomposedKey(s[1..])
  }

  /** Both keys are computed character by character, so they distribute over concatenation. */
  lemma {:induction false} ChosungKeyAppend(a: string, b: string)
    ensures ChosungKey(a + b) == ChosungKey(a) + ChosungKey(b)
    decreases |a|
  {
    if |a| == 0 {
      assert a + b == b;
    } else {
      assert (a + b)[0] == a[0];
      assert (a + b)[1..] == a[1..] + b;
      ChosungKeyAppend(a[1..], b);
    }
  }

  lemma {:induction false} DecomposedKeyAppend(a: string, b: string)
    ensures DecomposedKey(a + b) == DecomposedKey(a) + DecomposedKey(b)
    decreases |a|
  {
    if |a| == 0 {
      assert a + b == b;
    } else {
      assert (a + b)[0] == a[0];
      assert (a + b)[1..] == a[1..] + b;
      DecomposedKeyAppend(a[1..], b);
    }
  }

  /** Strings without syllables have an empty chosung key and decompose to themselves. */
  lemma {:induction false} KeysOfNonSyllables(s: string)
    requires forall k :: 0 <= k < |s| ==> !IsValidHangulUnicode(s[k] as int)
    ensures ChosungKey(s) == []
    ensures DecomposedKey(s) == s
  {
    if |s| > 0 {
      KeysOfNonSyllables(s[1..]);
      assert s == [s[0]] + s[1..];
    }
  }

  /** The chosung key picks, of each syllable, exactly the first jamo of its decomposition. */
  lemma ChosungOfIsFirstJamo(c: char)
    ensures IsValidHangulUnicode(c as int) ==> ChosungOf(c) == DecomposeKorean(c)[..1]
    ensures !IsValidHangulUnicode(c as int) ==> ChosungOf(c) == []
  {
    ChosungIndexIsDecomposedLead(c);
  }

  /** A pure chosung query consists of compatibility jamo only, so it is its own
      decomposed key and has an empty chosung key. */
  lemma PureChosungKeys(q: string)
    requires IsPureChosung(q)
    ensures DecomposedKey(q) == q
    ensures ChosungKey(q) == []
  {
    LeadsAreNotSyllables();
    assert forall k :: 0 <= k < |q| ==> !IsValidHangulUnicode(q[k] as int);
    KeysOfNonSyllables(q);
  }
}
