/**
  Properties of the engine as a whole: the cached collections are invisible to
  queries, appending items appends matches, and changing the sort mode only
  reorders results.
 */
module SearchProperties {
  import opened Seqs
  import opened Keys
  import opened Dedup
  import opened HangulSearch

  /** What a query matches, computed from the items and the key selector alone,
      never reading the preprocessed collections. */
  function ReferenceMatches<T>(e: Engine<T>, q: string): seq<T> {
    var full := Filter(e.items, FullCharTest(e.casing.fold, e.keyOf, q));
    var chosungOrFull := if IsPureChosung(q) then Filter(e.items, ChosungTest(e.keyOf, q)) else full;
    var auto := Filter(e.items, AutocompleteTest(e.casing.fold, e.keyOf, q));
    match e.searchMode
    case ContainsMatch => full
    case ChosungAndFullMatch => chosungOrFull
    case Autocomplete => auto
    case Combined => MergeUnique(DuplicateRule(e.keyOf, e.isEqual), full, chosungOrFull, auto)
  }

  /** On a consistent engine, the matcher reading the caches finds exactly what the
      reference finds from the items. */
  lemma CachedSearchIsReference<T>(e: Engine<T>, q: string)
    requires Consistent(e)
    ensures Matches(e, q) == ReferenceMatches(e, q)
  {
  }

  /** Every engine a constructor or mutator returns answers queries as the reference does. */
  lemma MutatorsKeepSearchExact<T>(e: Engine<T>, items: seq<T>, q: string)
    ensures Matches(AddItems(e, items), q) == ReferenceMatches(AddItems(e, items), q)
    ensures Matches(ChangeItems(e, items), q) == ReferenceMatches(ChangeItems(e, items), q)
    ensures forall m :: Matches(ChangeSearchMode(e, m), q) == ReferenceMatches(ChangeSearchMode(e, m), q)
    ensures forall k :: Matches(ChangeKeySelector(e, k), q) == ReferenceMatches(ChangeKeySelector(e, k), q)
  {
    CachedSearchIsReference(AddItems(e, items), q);
    CachedSearchIsReference(ChangeItems(e, items), q);
    forall m ensures Matches(ChangeSearchMode(e, m), q) == ReferenceMatches(ChangeSearchMode(e, m), q) {
      CachedSearchIsReference(ChangeSearchMode(e, m), q);
    }
    forall k ensures Matches(ChangeKeySelector(e, k), q) == ReferenceMatches(ChangeKeySelector(e, k), q) {
      CachedSearchIsReference(ChangeKeySelector(e, k), q);
    }
  }

  /** In every mode but `Combined`, `addItems` keeps the earlier matches in front and
      appends the matches among the new items after them. */
  lemma AddItemsAppendsMatches<T>(e: Engine<T>, items: seq<T>, q: string)
    requires Consistent(e)
    requires e.searchMode != Combined
    ensures Matches(AddItems(e, items), q) == Matches(e, q) + Matches(ChangeItems(e, items), q)
    ensures e.sortMode == Unsorted ==>
      SearchItems(AddItems(e, items), q) == SearchItems(e, q) + SearchItems(ChangeItems(e, items), q)
  {
    var added := AddItems(e, items);
    var replaced := ChangeItems(e, items);
    CachedSearchIsReference(e, q);
    CachedSearchIsReference(added, q);
    CachedSearchIsReference(replaced, q);
    FilterAppend(e.items, items, FullCharTest(e.casing.fold, e.keyOf, q));
    FilterAppend(e.items, items, ChosungTest(e.keyOf, q));
    FilterAppend(e.items, items, AutocompleteTest(e.casing.fold, e.keyOf, q));
  }

  /** `changeSortMode` leaves the matches alone: the results are a reordering of
      the same multiset, and exactly the matches when sorting is off. */
  lemma ChangeSortModeOnlyReorders<T>(e: Engine<T>, mode: SortMode, q: string)
    ensures Matches(ChangeSortMode(e, mode), q) == Matches(e, q)
    ensures multiset(SearchItems(ChangeSortMode(e, mode), q)) == multiset(SearchItems(e, q))
    ensures |q| > 0 && mode == Unsorted ==> SearchItems(ChangeSortMode(e, mode), q) == Matches(e, q)
  {
  }
}
