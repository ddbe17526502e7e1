/**
  The search engine: an immutable record holding the items, the two modes, the
  key selector, the optional secondary equality and the two preprocessed
  collections. Every mutator returns a new engine; `SearchItems` answers a query.
 */
module HangulSearch {
  import opened Optional
  import opened Text
  import opened Seqs
  import opened Sorting
  import opened Levenshtein
  import opened Keys
  import opened Dedup

  /** How a query is matched. */
  datatype SearchMode = ContainsMatch | ChosungAndFullMatch | Autocomplete | Combined

  /** How the matches are ordered; `Unsorted` is the source's `.none`. */
  datatype SortMode = HangulOrder | HangulOrderReversed | EditDistance | MatchPosition | Unsorted

  /** Foundation's case handling: `fold` for the localized case-insensitive
      containment, comparison and range search, `lower` for `Character.lowercased()`. */
  datatype Casing = Casing(fold: char -> char, lower: char -> char)

  /** One preprocessed pair `(item, key)`. */
  datatype Entry<T> = Entry(item: T, key: string)

  datatype Engine<!T> = Engine(
    items: seq<T>,
    searchMode: SearchMode,
    sortMode: SortMode,
    chosungEntries: seq<Entry<T>>,
    decomposedEntries: seq<Entry<T>>,
    keyOf: T -> string,
    isEqual: Option<(T, T) -> bool>,
    casing: Casing)

  /** The modes whose matcher reads the chosung collection. */
  predicate UsesChosung(m: SearchMode) {
    m == ChosungAndFullMatch || m == Combined
  }

  /** The modes whose matcher reads the decomposed collection. */
  predicate UsesDecomposed(m: SearchMode) {
    m == Autocomplete || m == Combined
  }

  /** `entries[i]` pairs `items[i]` with `derive` applied to its key. */
  ghost predicate Aligned<T>(entries: seq<Entry<T>>, items: seq<T>, keyOf: T -> string, derive: string -> string) {
    && |entries| == |items|
    && forall i :: 0 <= i < |items| ==> entries[i].item == items[i] && entries[i].key == derive(keyOf(items[i]))
  }

  /** The cache invariant: every collection the active mode reads is aligned with the items. */
  ghost predicate Consistent<T>(e: Engine<T>) {
    && (UsesChosung(e.searchMode) ==> Aligned(e.chosungEntries, e.items, e.keyOf, ChosungKey))
    && (UsesDecomposed(e.searchMode) ==> Aligned(e.decomposedEntries, e.items, e.keyOf, DecomposedKey))
  }

  function BuildEntries<T>(items: seq<T>, keyOf: T -> string, derive: string -> string): (r: seq<Entry<T>>)
    ensures Aligned(r, items, keyOf, derive)
  {
    seq(|items|, i requires 0 <= i < |items| => Entry(items[i], derive(keyOf(items[i]))))
  }

  function ItemsOf<T>(entries: seq<Entry<T>>): (r: seq<T>)
    ensures |r| == |entries|
    ensures forall i :: 0 <= i < |entries| ==> r[i] == entries[i].item
  {
    seq(|entries|, i requires 0 <= i < |entries| => entries[i].item)
  }

  // ---------------------------------------------------------------------------
  // Preprocessing and mutators

  /** `preprocessItems`: rebuilds the collection(s) the search mode needs and
      leaves the other untouched (in `ContainsMatch`, both). */
  function Preprocess<T>(e: Engine<T>): (r: Engine<T>)
    ensures Consistent(r)
    ensures r.items == e.items && r.searchMode == e.searchMode && r.sortMode == e.sortMode
    ensures r.keyOf == e.keyOf && r.isEqual == e.isEqual && r.casing == e.casing
    ensures !UsesChosung(e.searchMode) ==> r.chosungEntries == e.chosungEntries
    ensures !UsesDecomposed(e.searchMode) ==> r.decomposedEntries == e.decomposedEntries
  {
    var withChosung :=
      if UsesChosung(e.searchMode) then e.(chosungEntries := BuildEntries(e.items, e.keyOf, ChosungKey)) else e;
    if UsesDecomposed(e.searchMode) then
      withChosung.(decomposedEntries := BuildEntries(e.items, e.keyOf, DecomposedKey))
    else withChosung
  }

  /** `init`: stores the configuration and preprocesses. */
  function New<T>(items: seq<T>, searchMode: SearchMode, sortMode: SortMode, keyOf: T -> string,
                  isEqual: Option<(T, T) -> bool>, casing: Casing): (r: Engine<T>)
    ensures Consistent(r)
    ensures r.items == items && r.searchMode == searchMode && r.sortMode == sortMode
    ensures r.keyOf == keyOf && r.isEqual == isEqual && r.casing == casing
  {
    Preprocess(Engine(items, searchMode, sortMode, [], [], keyOf, isEqual, casing))
  }

  /** `init` with its defaults: chosung-or-full matching, no sorting, no `isEqual`. */
  function NewWithDefaults<T>(items: seq<T>, keyOf: T -> string, casing: Casing): (r: Engine<T>)
    ensures Consistent(r)
    ensures r.items == items && r.searchMode == ChosungAndFullMatch && r.sortMode == Unsorted
    ensures r.keyOf == keyOf && r.isEqual == None && r.casing == casing
  {
    New(items, ChosungAndFullMatch, Unsorted, keyOf, None, casing)
  }

  /** `changeItems`: replaces the items and rebuilds. */
  function ChangeItems<T>(e: Engine<T>, items: seq<T>): (r: Engine<T>)
    ensures Consistent(r)
    ensures r.items == items && r.searchMode == e.searchMode && r.sortMode == e.sortMode
    ensures r.keyOf == e.keyOf && r.isEqual == e.isEqual && r.casing == e.casing
  {
    Preprocess(e.(items := items))
  }

  /** `addItems`: appends the items and rebuilds. */
  function AddItems<T>(e: Engine<T>, items: seq<T>): (r: Engine<T>)
    ensures Consistent(r)
    ensures r.items == e.items + items && r.searchMode == e.searchMode && r.sortMode == e.sortMode
    ensures r.keyOf == e.keyOf && r.isEqual == e.isEqual && r.casing == e.casing
  {
    Preprocess(e.(items := e.items + items))
  }

  /** `changeSearchMode`: switches the mode and rebuilds for it. */
  function ChangeSearchMode<T>(e: Engine<T>, mode: SearchMode): (r: Engine<T>)
    ensures Consistent(r)
    ensures r.items == e.items && r.searchMode == mode && r.sortMode == e.sortMode
    ensures r.keyOf == e.keyOf && r.isEqual == e.isEqual && r.casing == e.casing
  {
    Preprocess(e.(searchMode := mode))
  }

  /** `changeKeySelector`: switches the key selector and rebuilds. */
  function ChangeKeySelector<T>(e: Engine<T>, keyOf: T -> string): (r: Engine<T>)
    ensures Consistent(r)
    ensures r.items == e.items && r.searchMode == e.searchMode && r.sortMode == e.sortMode
    ensures r.keyOf == keyOf && r.isEqual == e.isEqual && r.casing == e.casing
  {
    Preprocess(e.(keyOf := keyOf))
  }

  /** `changeSortMode`: only the sort mode changes; nothing is rebuilt. */
  function ChangeSortMode<T>(e: Engine<T>, mode: SortMode): (r: Engine<T>)
    ensures Consistent(e) ==> Consistent(r)
    ensures r.sortMode == mode
    ensures r.chosungEntries == e.chosungEntries && r.decomposedEntries == e.decomposedEntries
    ensures r.items == e.items && r.searchMode == e.searchMode
    ensures r.keyOf == e.keyOf && r.isEqual == e.isEqual && r.casing == e.casing
  {
    e.(sortMode := mode)
  }

  // ---------------------------------------------------------------------------
  // Matcher

  /** The three tests, stated on an item's own key and closed over just the data
      they read. Full-character: the key contains the query, ignoring case. */
  function FullCharTest<T>(fold: char -> char, keyOf: T -> string, q: string): T -> bool {
    x => CaseInsensitiveContains(fold, keyOf(x), q)
  }

  /** Chosung: the key's chosung key contains the query verbatim. */
  function ChosungTest<T>(keyOf: T -> string, q: string): T -> bool {
    x => Contains(ChosungKey(keyOf(x)), q)
  }

  /** Autocomplete: the key's decomposed key contains the decomposed query, ignoring case. */
  function AutocompleteTest<T>(fold: char -> char, keyOf: T -> string, q: string): T -> bool {
    x => CaseInsensitiveContains(fold, DecomposedKey(keyOf(x)), DecomposedKey(q))
  }

  /** The same tests, read off a preprocessed entry's cached key. */
  function ChosungEntryTest<T>(q: string): Entry<T> -> bool {
    (en: Entry<T>) => Contains(en.key, q)
  }

  function AutocompleteEntryTest<T>(fold: char -> char, decomposedQuery: string): Entry<T> -> bool {
    (en: Entry<T>) => CaseInsensitiveContains(fold, en.key, decomposedQuery)
  }

  /** `searchByFullChar`: the items whose key contains the query, ignoring case,
      in item order. */
  function SearchByFullChar<T>(e: Engine<T>, q: string): (r: seq<T>)
    ensures r == Select(e.items, MatchIndices(e.items, FullCharTest(e.casing.fold, e.keyOf, q)))
    ensures forall k :: 0 <= k < |r| ==> r[k] in e.items && FullCharTest(e.casing.fold, e.keyOf, q)(r[k])
    ensures forall i :: 0 <= i < |e.items| && FullCharTest(e.casing.fold, e.keyOf, q)(e.items[i]) ==> e.items[i] in r
  {
    var test := FullCharTest(e.casing.fold, e.keyOf, q);
    var r := Filter(e.items, test);
    FilterIsSelection(e.items, test);
    forall k | 0 <= k < |r| ensures r[k] in e.items && test(r[k]) {
      FilterMembership(e.items, test, r[k]);
    }
    forall i | 0 <= i < |e.items| && test(e.items[i]) ensures e.items[i] in r {
      FilterMembership(e.items, test, e.items[i]);
    }
    r
  }

  /** `searchByChosung`: the items whose cached chosung key contains the query verbatim.
      On a consistent engine this is the chosung test applied to the items themselves. */
  function SearchByChosung<T>(e: Engine<T>, q: string): (r: seq<T>)
    ensures Consistent(e) && UsesChosung(e.searchMode) ==> r == Filter(e.items, ChosungTest(e.keyOf, q))
  {
    var test := ChosungEntryTest(q);
    var r := ItemsOf(Filter(e.chosungEntries, test));
    assert Consistent(e) && UsesChosung(e.searchMode) ==> r == Filter(e.items, ChosungTest(e.keyOf, q)) by {
      if Consistent(e) && UsesChosung(e.searchMode) {
        FilterEntries(e.chosungEntries, e.items, test, ChosungTest(e.keyOf, q));
      }
    }
    r
  }

  /** `searchByAutocomplete`: the items whose cached decomposed key contains the
      decomposed query, ignoring case. On a consistent engine this is the
      autocomplete test applied to the items themselves. */
  function SearchByAutocomplete<T>(e: Engine<T>, q: string): (r: seq<T>)
    ensures Consistent(e) && UsesDecomposed(e.searchMode) ==> r == Filter(e.items, AutocompleteTest(e.casing.fold, e.keyOf, q))
  {
    var dq := DecomposedKey(q);
    var test := AutocompleteEntryTest(e.casing.fold, dq);
    var r := ItemsOf(Filter(e.decomposedEntries, test));
    assert Consistent(e) && UsesDecomposed(e.searchMode) ==> r == Filter(e.items, AutocompleteTest(e.casing.fold, e.keyOf, q)) by {
      if Consistent(e) && UsesDecomposed(e.searchMode) {
        FilterEntries(e.decomposedEntries, e.items, test, AutocompleteTest(e.casing.fold, e.keyOf, q));
      }
    }
    r
  }

  /** Filtering entries and reading back their items equals filtering the items,
      when the entries carry the items in order and the two tests agree on them. */
  lemma {:induction false} FilterEntries<T>(entries: seq<Entry<T>>, items: seq<T>,
                                            onEntry: Entry<T> -> bool, onItem: T -> bool)
    requires |entries| == |items|
    requires forall i :: 0 <= i < |items| ==> entries[i].item == items[i] && onEntry(entries[i]) == onItem(items[i])
    ensures ItemsOf(Filter(entries, onEntry)) == Filter(items, onItem)
    decreases |items|
  {
    if |items| > 0 {
      FilterEntries(entries[1..], items[1..], onEntry, onItem);
    }
  }

  /** The branch `chosungAndFullMatch` takes (and `combined` runs second):
      chosung search for a pure chosung query, full-character search otherwise. */
  function SearchByChosungOrFull<T>(e: Engine<T>, q: string): (r: seq<T>)
    ensures IsPureChosung(q) && Consistent(e) && UsesChosung(e.searchMode) ==>
      r == Filter(e.items, ChosungTest(e.keyOf, q))
    ensures !IsPureChosung(q) ==> r == SearchByFullChar(e, q)
  {
    if IsPureChosung(q) then SearchByChosung(e, q) else SearchByFullChar(e, q)
  }

  /** The equality rule of the deduplicator, asked with the kept element first:
      same key, and `isEqual` when supplied. */
  function DuplicateRule<T>(keyOf: T -> string, isEqual: Option<(T, T) -> bool>): (T, T) -> bool {
    (kept, candidate) =>
      && keyOf(kept) == keyOf(candidate)
      && match isEqual
         case None => true
         case Some(same) => same(kept, candidate)
  }

  /** `searchByCombined`: full-character, then chosung-or-full, then autocomplete
      results, merged without duplicates, first seen first kept. */
  function SearchByCombined<T>(e: Engine<T>, q: string): (r: seq<T>)
    ensures var passes := SearchByFullChar(e, q) + SearchByChosungOrFull(e, q) + SearchByAutocomplete(e, q);
      var dup := DuplicateRule(e.keyOf, e.isEqual);
      && r == KeptAfter(dup, passes, |passes|)
      && (forall k :: 0 <= k < |passes| ==>
            KeptAfter(dup, passes, k + 1) ==
              if HasDuplicate(dup, KeptAfter(dup, passes, k), passes[k])
              then KeptAfter(dup, passes, k)
              else KeptAfter(dup, passes, k) + [passes[k]])
      && IsSubsequence(r, passes)
      && NoDuplicates(dup, r)
      && (forall k :: 0 <= k < |passes| ==> passes[k] in r || HasDuplicate(dup, r, passes[k]))
  {
    var a, b, c := SearchByFullChar(e, q), SearchByChosungOrFull(e, q), SearchByAutocomplete(e, q);
    KeptAfterStep(DuplicateRule(e.keyOf, e.isEqual), a + b + c);
    MergeUnique(DuplicateRule(e.keyOf, e.isEqual), a, b, c)
  }

  /** The unsorted matches of a non-empty query under the active search mode. */
  function Matches<T>(e: Engine<T>, q: string): seq<T> {
    match e.searchMode
    case ContainsMatch => SearchByFullChar(e, q)
    case ChosungAndFullMatch => SearchByChosungOrFull(e, q)
    case Autocomplete => SearchByAutocomplete(e, q)
    case Combined => SearchByCombined(e, q)
  }

  // ---------------------------------------------------------------------------
  // Sorter

  /** The folded key, ordered lexicographically by `HangulOrder`. */
  function FoldedKey<T>(e: Engine<T>, x: T): string {
    Fold(e.casing.fold, e.keyOf(x))
  }

  /** `matchPosition`'s rank: the UTF-16 offset of the first case-insensitive
      occurrence of the query, None (the `Int.max` sentinel) when there is none. */
  function MatchRank<T>(e: Engine<T>, q: string, x: T): (r: Option<int>)
    ensures r.Some? <==> CaseInsensitiveContains(e.casing.fold, e.keyOf(x), q)
  {
    match FirstOccurrence(Fold(e.casing.fold, e.keyOf(x)), Fold(e.casing.fold, q))
    case Some(i) => Some(Utf16Offset(e.keyOf(x), i))
    case None => None
  }

  /** Ranks in increasing order, a missing occurrence after every present one. */
  predicate RankLess(a: Option<int>, b: Option<int>) {
    a.Some? && (b.None? || a.value < b.value)
  }

  predicate LexGreater(a: string, b: string) {
    LexLess(b, a)
  }

  lemma ComparatorsAreStrictWeakOrders()
    ensures StrictWeakOrder(LexLess)
    ensures StrictWeakOrder(LexGreater)
    ensures StrictWeakOrder(IntLess)
    ensures StrictWeakOrder(RankLess)
  {
    LexLessStrictTotalOrder();
  }

  /** The distance `sortItemsByEditDistance` compares: from the item's key to the query. */
  function EditRank<T>(e: Engine<T>, q: string, x: T): int {
    Distance(e.casing.lower, e.keyOf(x), q)
  }

  /** The four `sortItemsBy*` functions and `.none`. */
  function SortResults<T>(e: Engine<T>, q: string, rs: seq<T>): (r: seq<T>)
    ensures multiset(r) == multiset(rs)
    ensures e.sortMode == Unsorted ==> r == rs
    ensures e.sortMode == HangulOrder ==>
      forall i, j :: 0 <= i < j < |r| ==> !LexLess(FoldedKey(e, r[j]), FoldedKey(e, r[i]))
    ensures e.sortMode == HangulOrderReversed ==>
      forall i, j :: 0 <= i < j < |r| ==> !LexLess(FoldedKey(e, r[i]), FoldedKey(e, r[j]))
    ensures e.sortMode == EditDistance ==>
      forall i, j :: 0 <= i < j < |r| ==> EditRank(e, q, r[i]) <= EditRank(e, q, r[j])
    ensures e.sortMode == MatchPosition ==>
      forall i, j :: 0 <= i < j < |r| ==>
        (MatchRank(e, q, r[i]).None? ==> MatchRank(e, q, r[j]).None?) &&
        (MatchRank(e, q, r[j]).Some? ==> MatchRank(e, q, r[i]).value <= MatchRank(e, q, r[j]).value)
  {
    ComparatorsAreStrictWeakOrders();
    match e.sortMode
    case HangulOrder => SortBy(rs, x => FoldedKey(e, x), LexLess)
    case HangulOrderReversed => SortBy(rs, x => FoldedKey(e, x), LexGreater)
    case EditDistance => SortBy(rs, x => EditRank(e, q, x), IntLess)
    case MatchPosition => SortBy(rs, x => MatchRank(e, q, x), RankLess)
    case Unsorted => rs
  }

  /** `searchItems`: nothing for the empty query; otherwise the mode's matches,
      reordered by the sort mode. */
  function SearchItems<T>(e: Engine<T>, q: string): (r: seq<T>)
    ensures |q| == 0 ==> r == []
    ensures |q| > 0 ==> multiset(r) == multiset(Matches(e, q))
    ensures |q| > 0 && e.sortMode == Unsorted ==> r == Matches(e, q)
    ensures |q| > 0 && e.sortMode == HangulOrder ==>
      forall i, j :: 0 <= i < j < |r| ==> !LexLess(FoldedKey(e, r[j]), FoldedKey(e, r[i]))
    ensures |q| > 0 && e.sortMode == HangulOrderReversed ==>
      forall i, j :: 0 <= i < j < |r| ==> !LexLess(FoldedKey(e, r[i]), FoldedKey(e, r[j]))
    ensures |q| > 0 && e.sortMode == EditDistance ==>
      forall i, j :: 0 <= i < j < |r| ==> EditRank(e, q, r[i]) <= EditRank(e, q, r[j])
    ensures |q| > 0 && e.sortMode == MatchPosition ==>
      forall i, j :: 0 <= i < j < |r| ==>
        (MatchRank(e, q, r[i]).None? ==> MatchRank(e, q, r[j]).None?) &&
        (MatchRank(e, q, r[j]).Some? ==> MatchRank(e, q, r[i]).value <= MatchRank(e, q, r[j]).value)
  {
    if |q| == 0 then [] else SortResults(e, q, Matches(e, q))
  }
}
