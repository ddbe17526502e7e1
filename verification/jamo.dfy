/**
  The Hangul syllable decomposer: index arithmetic on the precomposed Hangul
  syllable block U+AC00..U+D7A3 (section 3.12 of the Unicode Standard,
  "Conjoining Jamo Behavior", Hangul Syllable Decomposition), emitting
  Hangul *compatibility* jamo from three fixed tables.
 */
module Jamo {
  import opened Optional

  /** First and last code point of the precomposed syllable block ('가' and '힣'). */
  const SyllableBase: int := 0xAC00
  const SyllableLast: int := 0xD7A3

  const VowelCount: int := 21
  const TrailCount: int := 28
  /** Number of syllables sharing one leading consonant: 21 * 28. */
  const LeadStride: int := VowelCount * TrailCount

  /** The 19 leading consonants (chosung), in index order. */
  const Leads: seq<char> :=
    ['ㄱ', 'ㄲ', 'ㄴ', 'ㄷ', 'ㄸ', 'ㄹ', 'ㅁ',
     'ㅂ', 'ㅃ', 'ㅅ', 'ㅆ', 'ㅇ', 'ㅈ', 'ㅉ', 'ㅊ', 'ㅋ', 'ㅌ', 'ㅍ', 'ㅎ']

  /** The 21 vowels (jungsung), in index order. */
  const Vowels: seq<char> :=
    ['ㅏ', 'ㅐ', 'ㅑ', 'ㅒ', 'ㅓ', 'ㅔ', 'ㅕ', 'ㅖ', 'ㅗ', 'ㅘ', 'ㅙ',
     'ㅚ', 'ㅛ', 'ㅜ', 'ㅝ', 'ㅞ', 'ㅟ', 'ㅠ', 'ㅡ', 'ㅢ', 'ㅣ']

  /** The 28 trailing-consonant (jongsung) slots; slot 0 means "no trailing consonant". */
  const Trails: seq<Option<char>> :=
    [None, Some('ㄱ'), Some('ㄲ'), Some('ㄳ'), Some('ㄴ'), Some('ㄵ'), Some('ㄶ'),
     Some('ㄷ'), Some('ㄹ'), Some('ㄺ'), Some('ㄻ'), Some('ㄼ'), Some('ㄽ'), Some('ㄾ'),
     Some('ㄿ'), Some('ㅀ'), Some('ㅁ'), Some('ㅂ'), Some('ㅄ'), Some('ㅅ'), Some('ㅆ'),
     Some('ㅇ'), Some('ㅈ'), Some('ㅊ'), Some('ㅋ'), Some('ㅌ'), Some('ㅍ'), Some('ㅎ')]

  /** The 27 real trailing consonants, i.e. slots 1..27 of `Trails` unwrapped. */
  const TrailJamo: seq<char> :=
    ['ㄱ', 'ㄲ', 'ㄳ', 'ㄴ', 'ㄵ', 'ㄶ', 'ㄷ', 'ㄹ', 'ㄺ', 'ㄻ', 'ㄼ', 'ㄽ', 'ㄾ', 'ㄿ',
     'ㅀ', 'ㅁ', 'ㅂ', 'ㅄ', 'ㅅ', 'ㅆ', 'ㅇ', 'ㅈ', 'ㅊ', 'ㅋ', 'ㅌ', 'ㅍ', 'ㅎ']

  /** The three indices a syllable is made of. */
  datatype Syllable = Syllable(lead: int, vowel: int, trail: int)

  predicate InTables(s: Syllable) {
    0 <= s.lead < |Leads| && 0 <= s.vowel < |Vowels| && 0 <= s.trail < |Trails|
  }

  /** `isValidHangulUnicode`: is the code point a precomposed syllable? */
  predicate IsValidHangulUnicode(u: int) {
    SyllableBase <= u <= SyllableLast
  }

  /** The code point of the syllable with the given indices. */
  function ComposeSyllable(s: Syllable): (u: int)
    requires InTables(s)
    ensures IsValidHangulUnicode(u)
  {
    SyllableBase + s.lead * LeadStride + s.vowel * TrailCount + s.trail
  }

  /** The index arithmetic shared by `decomposeKorean` and `getChosungIndex`. */
  function SplitSyllable(u: int): (s: Syllable)
    requires IsValidHangulUnicode(u)
    ensures InTables(s)
    ensures ComposeSyllable(s) == u
  {
    var offset := u - SyllableBase;
    Syllable(offset / LeadStride, (offset % LeadStride) / TrailCount, offset % TrailCount)
  }

  /** The index triple of a syllable is unique: splitting undoes composing. */
  lemma SplitCompose(s: Syllable)
    requires InTables(s)
    ensures SplitSyllable(ComposeSyllable(s)) == s
  {
    var offset := s.lead * LeadStride + s.vowel * TrailCount + s.trail;
    var inner := s.vowel * TrailCount + s.trail;
    assert 0 <= inner < LeadStride;
    assert offset / LeadStride == s.lead && offset % LeadStride == inner;
    assert inner / TrailCount == s.vowel && inner % TrailCount == s.trail;
  }

  /** `getChosungIndex`: the lead index of a syllable, None for every other character. */
  function ChosungIndex(c: char): (r: Option<int>)
    ensures r.Some? <==> IsValidHangulUnicode(c as int)
    ensures r.Some? ==> 0 <= r.value < |Leads|
    ensures r.Some? ==> r.value * LeadStride <= c as int - SyllableBase < (r.value + 1) * LeadStride
  {
    if IsValidHangulUnicode(c as int) then Some((c as int - SyllableBase) / TrailCount / VowelCount)
    else None
  }

  /** `decomposeKorean`: a syllable becomes its lead, vowel and (if any) trailing jamo;
      any other character is returned alone. */
  function DecomposeKorean(c: char): (r: seq<char>)
    ensures !IsValidHangulUnicode(c as int) ==> r == [c]
    ensures IsValidHangulUnicode(c as int) ==>
      |r| == (if (c as int - SyllableBase) % TrailCount == 0 then 2 else 3)
    ensures IsValidHangulUnicode(c as int) ==>
      r[0] in Leads && r[1] in Vowels && (|r| == 3 ==> r[2] in TrailJamo)
  {
    if IsValidHangulUnicode(c as int) then
      var s := SplitSyllable(c as int);
      var lv := [Leads[s.lead], Vowels[s.vowel]];
      match Trails[s.trail]
      case Some(t) => lv + [t]
      case None => lv
    else [c]
  }

  /** Position of `c` in `table`, None when absent. */
  function IndexIn(table: seq<char>, c: char): (r: Option<int>)
    ensures r.Some? ==> 0 <= r.value < |table| && table[r.value] == c
    ensures r.Some? ==> forall k :: 0 <= k < r.value ==> table[k] != c
    ensures r.None? ==> c !in table
  {
    if |table| == 0 then None
    else if table[0] == c then Some(0)
    else match IndexIn(table[1..], c)
      case Some(i) => Some(i + 1)
      case None => None
  }

  /** Reassembles the compatibility jamo of one syllable (lead, vowel, optional
      trailing consonant) into the precomposed syllable. */
  function ComposeJamo(js: seq<char>): (r: Option<char>)
    ensures r.Some? ==> IsValidHangulUnicode(r.value as int)
  {
    ComposeWith(Leads, Vowels, TrailJamo, js)
  }

  /** `ComposeJamo` over tables of the right sizes, given as parameters. */
  function ComposeWith(leads: seq<char>, vowels: seq<char>, trails: seq<char>, js: seq<char>): (r: Option<char>)
    requires |leads| == |Leads| && |vowels| == |Vowels| && |trails| == |TrailJamo|
    ensures r.Some? ==> IsValidHangulUnicode(r.value as int)
  {
    if |js| != 2 && |js| != 3 then None
    else
      var l := IndexIn(leads, js[0]);
      var v := IndexIn(vowels, js[1]);
      var t := if |js| == 2 then Some(-1) else IndexIn(trails, js[2]);
      if l.None? || v.None? || t.None? then None
      else Some(ComposeSyllable(Syllable(l.value, v.value, t.value + 1)) as char)
  }


  /** Each table lists its jamo in strictly increasing code-point order, hence without repeats. */
  /** Strictly increasing code points, so no entry repeats. */
  ghost predicate StrictlyIncreasing(table: seq<char>) {
    forall i, j :: 0 <= i < j < |table| ==> table[i] < table[j]
  }

  /** Each entry is below the next one. */
  ghost predicate StepsIncrease(table: seq<char>) {
    forall i :: 0 <= i < |table| - 1 ==> table[i] < table[i + 1]
  }

  lemma {:induction false} StepsIncreaseStrictly(table: seq<char>)
    requires StepsIncrease(table)
    ensures StrictlyIncreasing(table)
    decreases |table|
  {
    if |table| > 1 {
      var tail := table[1..];
      assert StepsIncrease(tail) by {
        forall i | 0 <= i < |tail| - 1 ensures tail[i] < tail[i + 1] {
          assert tail[i] == table[i + 1] && tail[i + 1] == table[i + 2];
        }
      }
      StepsIncreaseStrictly(tail);
      forall i, j | 0 <= i < j < |table| ensures table[i] < table[j] {
        if i > 0 {
          assert table[i] == tail[i - 1] && table[j] == tail[j - 1];
        } else if j > 1 {
          assert table[1] == tail[0] && table[j] == tail[j - 1];
        }
      }
    }
  }

  lemma LeadsIncreasing()
    ensures StrictlyIncreasing(Leads)
  {
    StepsIncreaseStrictly(Leads);
  }

  /** The lead jamo lie outside the syllable block. */
  lemma LeadsAreNotSyllables()
    ensures forall i :: 0 <= i < |Leads| ==> !IsValidHangulUnicode(Leads[i] as int)
  {
  }

  lemma VowelsIncreasing()
    ensures StrictlyIncreasing(Vowels)
  {
    StepsIncreaseStrictly(Vowels);
  }

  lemma TrailJamoIncreasing()
    ensures StrictlyIncreasing(TrailJamo)
  {
    StepsIncreaseStrictly(TrailJamo);
  }

  /** Slot `i` of the trailing table holds entry `i - 1` of the consonant list. */
  lemma TrailsAreTrailJamo()
    ensures forall i :: 1 <= i < |Trails| ==> Trails[i] == Some(TrailJamo[i - 1])
  {
  }

  lemma IndexInDistinct(table: seq<char>, i: int)
    requires 0 <= i < |table|
    requires StrictlyIncreasing(table)
    ensures IndexIn(table, table[i]) == Some(i)
  {
    var r := IndexIn(table, table[i]);
    assert r.Some?;
    if r.value < i {
      assert false;
    } else if r.value > i {
      assert false;
    }
  }

  /** The emitted jamo of a syllable, by table position. */
  lemma DecomposedJamo(c: char)
    requires IsValidHangulUnicode(c as int)
    ensures var s := SplitSyllable(c as int);
      var r := DecomposeKorean(c);
      && |r| == (if s.trail == 0 then 2 else 3)
      && r[0] == Leads[s.lead] && r[1] == Vowels[s.vowel]
      && (s.trail != 0 ==> r[2] == TrailJamo[s.trail - 1])
  {
    var s := SplitSyllable(c as int);
    if s.trail == 0 {
      assert Trails[0] == None;
    } else {
      TrailsAreTrailJamo();
    }
  }

  /** With repeat-free tables, the positions of the emitted jamo are recovered by
      lookup, and composing at those positions gives the syllable back. */
  lemma ComposeWithRecovers(leads: seq<char>, vowels: seq<char>, trails: seq<char>, js: seq<char>, s: Syllable)
    requires |leads| == |Leads| && |vowels| == |Vowels| && |trails| == |TrailJamo|
    requires StrictlyIncreasing(leads) && StrictlyIncreasing(vowels) && StrictlyIncreasing(trails)
    requires InTables(s)
    requires |js| == (if s.trail == 0 then 2 else 3)
    requires js[0] == leads[s.lead] && js[1] == vowels[s.vowel]
    requires s.trail != 0 ==> js[2] == trails[s.trail - 1]
    ensures ComposeWith(leads, vowels, trails, js) == Some(ComposeSyllable(s) as char)
  {
    IndexInDistinct(leads, s.lead);
    IndexInDistinct(vowels, s.vowel);
    if s.trail != 0 {
      IndexInDistinct(trails, s.trail - 1);
    }
  }

  /** Recomposition: decomposing a syllable and composing its jamo again gives it back;
      every other character decomposes to itself. */
  lemma DecomposeRoundTrip(c: char)
    ensures IsValidHangulUnicode(c as int) ==> ComposeJamo(DecomposeKorean(c)) == Some(c)
    ensures !IsValidHangulUnicode(c as int) ==> DecomposeKorean(c) == [c]
  {
    if IsValidHangulUnicode(c as int) {
      var s := SplitSyllable(c as int);
      var r := DecomposeKorean(c);
      DecomposedJamo(c);
      LeadsIncreasing();
      VowelsIncreasing();
      TrailJamoIncreasing();
      ComposeWithRecovers(Leads, Vowels, TrailJamo, r, s);
    }
  }

  /** `getChosungIndex` and `decomposeKorean` agree on the leading consonant. */
  lemma ChosungIndexIsDecomposedLead(c: char)
    ensures ChosungIndex(c).Some? ==>
      ChosungIndex(c).value == SplitSyllable(c as int).lead &&
      DecomposeKorean(c)[0] == Leads[ChosungIndex(c).value]
  {
    if IsValidHangulUnicode(c as int) {
      var offset := c as int - SyllableBase;
      var q := offset / LeadStride;
      assert offset == q * LeadStride + offset % LeadStride;
      assert offset / TrailCount == q * VowelCount + (offset % LeadStride) / TrailCount;
      assert offset / TrailCount / VowelCount == q;
    }
  }
}
