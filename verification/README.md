# HangulSearch in Dafny

A model of `HangulSearch<T>`, a generic in-memory search engine aware of the
Korean script. Given items and a key selector, it answers queries by plain
case-insensitive containment, by leading consonants only (chosung search), by
containment of fully decomposed jamo (autocomplete), or by all three merged
without duplicates, and it orders the matches by one of four sort modes.

The model follows the one Swift source file, part by part:

- `Jamo` (`jamo.dfy`): the three jamo tables, `isValidHangulUnicode`,
  `getChosungIndex` and `decomposeKorean`. It uses the index arithmetic of
  section 3.12 of the Unicode Standard (Hangul Syllable Decomposition) and emits
  compatibility jamo. It proves that the indices are bounded, that composing
  and splitting are inverse, and that decomposing then reassembling a syllable
  gives it back.
- `Keys` (`keys.dfy`): the chosung key, the decomposed key and `isPureChosung`.
- `Text` (`text.dfy`): substring containment, the first-occurrence offset, case
  folding, UTF-16 offsets and a lexicographic order.
- `Seqs` (`seqs.dfy`): the order-preserving `filter` every strategy is built on,
  specified as "exactly the input read at the matching positions, in order".
- `Dedup` (`dedup.dfy`): the `appendIfUnique` merge used by combined mode.
- `Sorting` (`sorting.dfy`): sorting under a strict weak order.
- `Levenshtein` (`levenshtein.dfy`): the table-filling edit distance, proved
  equal to the recursive definition, with its bounds, symmetry and zero case.
- `HangulSearch` (`engine.dfy`): the engine record, preprocessing, the
  mutators, the four strategies, `searchItems` and the sort dispatch.
- `SearchProperties` (`properties.dfy`): what holds of the engine as a whole.
  The preprocessed collections never change an answer. `addItems` appends
  matches. `changeSortMode` only reorders.

Modelling choices:

- Strings are sequences of Unicode scalar values, and every scalar is one
  `char`. Where the source works on a `Character` (`getChosungIndex`,
  `decomposeKorean`, `lowercased()`, `contains` on a jamo table), the model
  works on a single scalar. This matches the source for every `Character`
  made of one scalar. "## Left out" lists what differs for multi-scalar
  `Character`s.
- The engine is an immutable record. Each mutator returns a new engine.
  `keySelector` and `isEqual` are pure function-valued fields.
- Foundation's case-insensitive services are passed in as the engine's
  `Casing`. `fold` stands for the case folding behind
  `localizedCaseInsensitiveContains`, `localizedCaseInsensitiveCompare` and
  `range(of:options: .caseInsensitive)`. `lower` stands for
  `Character.lowercased()`. Both map one character to one character.
- `localizedCaseInsensitiveCompare` is modelled as lexicographic code-point
  order on folded keys.
- The `Int.max` sentinel of `sortItemsByMatchPosition` is modelled as `None`,
  which ranks after every found offset.
- The source's `sorted` is not stable, so for every sort mode the model claims
  only "a permutation of the matches, in order". Insertion sort is the
  witness.
- Preprocessing rebuilds only the collections the current mode reads, so the
  other collection can be stale. The invariant `Consistent` says that every
  collection the active mode reads is aligned with the items. Every
  constructor and mutator establishes it, and `changeSortMode` preserves it.
- Two `String.contains` calls differ. `searchByChosung` uses a verbatim test,
  which the model represents as plain substring containment.
  `searchByFullChar` and `searchByAutocomplete` use the case-insensitive test.
  Autocomplete matches a substring anywhere in the key, not only a prefix, as
  the code does.

## Model

| member | source | states |
|---|---|---|
| Jamo.SplitSyllable | Sources/HangulSearch/Source/HangulSearch.swift:288-291 | for a code point in U+AC00..U+D7A3 the lead, vowel and trail indices are below 19, 21 and 28, and lead*588 + vowel*28 + trail + 0xAC00 gives the code point back |
| Jamo.SplitCompose | Sources/HangulSearch/Source/HangulSearch.swift:288-291 | the other direction: every in-range index triple is recovered from the code point it composes, so indices and syllables correspond one to one |
| Jamo.ChosungIndex | Sources/HangulSearch/Source/HangulSearch.swift:266-273 | an index is returned exactly for code points in the syllable block; it is below 19 and is the offset's quotient by 588 |
| Jamo.DecomposeKorean | Sources/HangulSearch/Source/HangulSearch.swift:285-299 | a character outside the block comes back alone; a syllable gives 2 jamo when its offset is a multiple of 28 and 3 otherwise, taken from the lead, vowel and trailing tables in that order |
| Jamo.DecomposeRoundTrip | Sources/HangulSearch/Source/HangulSearch.swift:285-299 | reassembling the emitted jamo by their table positions recovers the original syllable, and any other character decomposes to itself |
| Jamo.ChosungIndexIsDecomposedLead | Sources/HangulSearch/Source/HangulSearch.swift:266-299 | `getChosungIndex` returns the same lead index `decomposeKorean` uses, and the table entry at that index is the first jamo of the decomposition |
| Jamo.IndexIn | Sources/HangulSearch/Source/HangulSearch.swift:279 | the table lookup behind `contains` on a jamo table: a found position holds the character and no earlier one does; not found means the character is absent |
| Keys.IsPureChosung | Sources/HangulSearch/Source/HangulSearch.swift:278-280 | true iff every character of the query is one of the 19 lead jamo (so the empty query is pure) |
| Keys.ChosungKey | Sources/HangulSearch/Source/HangulSearch.swift:153-161 | the chosung key has one character per syllable of the key, so it is no longer than the key, and consists of lead jamo only |
| Keys.DecomposedKey | Sources/HangulSearch/Source/HangulSearch.swift:166-169 | the decomposed key keeps every non-syllable and expands each syllable to 2 or 3 jamo, which bounds its length |
| Keys.ChosungKeyAppend | Sources/HangulSearch/Source/HangulSearch.swift:155-160 | the chosung key is built character by character: the key of a concatenation is the concatenation of the keys |
| Keys.DecomposedKeyAppend | Sources/HangulSearch/Source/HangulSearch.swift:168 | the decomposed key (`flatMap(decomposeKorean)`) distributes over concatenation |
| Keys.KeysOfNonSyllables | Sources/HangulSearch/Source/HangulSearch.swift:155-168 | text without syllables has an empty chosung key (those characters are dropped) and is its own decomposed key (they pass through) |
| Keys.ChosungOfIsFirstJamo | Sources/HangulSearch/Source/HangulSearch.swift:155-160 | the chosung key's contribution of a syllable is the first jamo of its decomposition, and other characters contribute nothing |
| Keys.PureChosungKeys | Sources/HangulSearch/Source/HangulSearch.swift:220 | a pure chosung query decomposes to itself, so autocomplete searches for it verbatim |
| Text.FirstOccurrence | Sources/HangulSearch/Source/HangulSearch.swift:382 | the `range(of:)` lower bound: the needle occurs at the returned offset and at no earlier one; None exactly when it occurs nowhere |
| Text.ContainsMeansOccurs | Sources/HangulSearch/Source/HangulSearch.swift:202 | substring containment holds iff the needle occurs at some offset |
| Text.Utf16Offset | Sources/HangulSearch/Source/HangulSearch.swift:382 | the UTF-16 offset of position i is between i and 2i and strictly increases with i, so ordering by it orders by character position |
| Text.LexLessStrictTotalOrder | Sources/HangulSearch/Source/HangulSearch.swift:315 | the comparison standing in for `localizedCaseInsensitiveCompare` is asymmetric, transitive and total |
| Seqs.MatchIndices | Sources/HangulSearch/Source/HangulSearch.swift:211-213 | the matching positions are strictly increasing, each satisfies the test, and every position that satisfies it is listed |
| Seqs.Filter | Sources/HangulSearch/Source/HangulSearch.swift:211-213 | `filter` never lengthens its input and every element it returns passes the test |
| Seqs.FilterIsSelection | Sources/HangulSearch/Source/HangulSearch.swift:211-213 | `filter` returns exactly the input read at the matching positions, in input order, and nothing else |
| Seqs.FilterAppend | Sources/HangulSearch/Source/HangulSearch.swift:120-123 | filtering appended items appends their matches after the earlier ones |
| Seqs.FilterMembership | Sources/HangulSearch/Source/HangulSearch.swift:211-213 | an element is in the filter result iff it is in the input and passes the test |
| Sorting.SortBy | Sources/HangulSearch/Source/HangulSearch.swift:331-333 | `sorted(by:)` under a strict weak order returns a permutation in which no element is ordered before one ahead of it |
| Levenshtein.LevenshteinDistance | Sources/HangulSearch/Source/HangulSearch.swift:344-373 | the table-filling method returns the length of the other string when one is empty, and in all cases the recursive min(delete+1, insert+1, substitute+cost) distance |
| Levenshtein.DistanceBounds | Sources/HangulSearch/Source/HangulSearch.swift:344-373 | the distance is at least the length difference and at most the longer length |
| Levenshtein.DistanceZeroIff | Sources/HangulSearch/Source/HangulSearch.swift:363 | the distance is 0 iff the strings have equal length and equal lowercased characters; every string is at distance 0 from itself |
| Levenshtein.DistanceSymmetric | Sources/HangulSearch/Source/HangulSearch.swift:344-373 | the distance does not depend on argument order |
| Dedup.AppendIfUnique | Sources/HangulSearch/Source/HangulSearch.swift:240-252 | a candidate is appended iff no kept element is its duplicate, so a duplicate-free accumulator stays duplicate-free |
| Dedup.AppendAllUnique | Sources/HangulSearch/Source/HangulSearch.swift:255 | one pass keeps the accumulator as a prefix, appends a subsequence of the pass, keeps it duplicate-free, and drops a candidate only when a duplicate of it is kept; which candidates it keeps is fixed by `AppendAllUniqueSnoc` and `KeptAfterStep` |
| Dedup.AppendAllUniqueSnoc | Sources/HangulSearch/Source/HangulSearch.swift:255 | `forEach(appendIfUnique)` over a pass extended by one candidate equals the pass followed by one `appendIfUnique` of that candidate |
| Dedup.KeptAfterStep | Sources/HangulSearch/Source/HangulSearch.swift:240-259 | first-seen order: nothing is kept before any candidate, and candidate k is appended exactly when no element kept from candidates 0..k-1 is its duplicate; this determines the kept sequence |
| Dedup.AppendAllUniqueConcat | Sources/HangulSearch/Source/HangulSearch.swift:254-259 | two passes in a row equal one pass over their concatenation |
| Dedup.MergeUnique | Sources/HangulSearch/Source/HangulSearch.swift:230-261 | the merge of the three passes is what the first-seen step rule keeps from their concatenation; it is a subsequence of the concatenation, contains no duplicate pair, draws every element from a pass, and keeps or dominates every candidate |
| HangulSearch.Preprocess | Sources/HangulSearch/Source/HangulSearch.swift:149-195 | the collections the mode reads are rebuilt aligned with the items; in modes that do not read one, it is left untouched, and `containsMatch` touches neither |
| HangulSearch.New | Sources/HangulSearch/Source/HangulSearch.swift:62-69 | a new engine stores its configuration and is consistent |
| HangulSearch.NewWithDefaults | Sources/HangulSearch/Source/HangulSearch.swift:62 | the initializer's defaults: chosung-or-full search, no sorting, no `isEqual`; the engine is consistent |
| HangulSearch.ChangeItems | Sources/HangulSearch/Source/HangulSearch.swift:113-116 | replaces the items, keeps the configuration and leaves the engine consistent |
| HangulSearch.AddItems | Sources/HangulSearch/Source/HangulSearch.swift:120-123 | appends the items after the existing ones and leaves the engine consistent |
| HangulSearch.ChangeSearchMode | Sources/HangulSearch/Source/HangulSearch.swift:127-130 | switches the mode and leaves the engine consistent for the new mode |
| HangulSearch.ChangeKeySelector | Sources/HangulSearch/Source/HangulSearch.swift:134-137 | switches the key selector and leaves the engine consistent for it |
| HangulSearch.ChangeSortMode | Sources/HangulSearch/Source/HangulSearch.swift:141-143 | only the sort mode changes: both collections are untouched and consistency is preserved |
| HangulSearch.SearchByFullChar | Sources/HangulSearch/Source/HangulSearch.swift:210-214 | the result is the items read at exactly the positions whose key contains the query ignoring case, in item order and each once; so every result passes the test and every passing item is in the result |
| HangulSearch.SearchByChosung | Sources/HangulSearch/Source/HangulSearch.swift:200-205 | on a consistent engine, filtering the cached chosung keys gives the items whose own chosung key contains the query verbatim, in item order |
| HangulSearch.SearchByAutocomplete | Sources/HangulSearch/Source/HangulSearch.swift:219-225 | on a consistent engine, filtering the cached decomposed keys gives the items whose decomposed key contains the decomposed query ignoring case, in item order |
| HangulSearch.FilterEntries | Sources/HangulSearch/Source/HangulSearch.swift:201-203 | filtering entries and mapping them to their items equals filtering the items directly when the entries carry the items in order |
| HangulSearch.SearchByChosungOrFull | Sources/HangulSearch/Source/HangulSearch.swift:87 | a pure chosung query on a consistent engine is matched verbatim against chosung keys; any other query falls back to full-character search |
| HangulSearch.SearchByCombined | Sources/HangulSearch/Source/HangulSearch.swift:230-261 | over full-char, then chosung-or-full, then autocomplete results, candidate k is appended exactly when nothing kept from the earlier candidates duplicates it (same key, and `isEqual` when supplied), and the result is what remains after the last candidate; hence a subsequence of the passes with no duplicate pair, in which every candidate is kept or has a kept duplicate |
| HangulSearch.MatchRank | Sources/HangulSearch/Source/HangulSearch.swift:382-383 | a match position exists exactly when the key contains the query ignoring case |
| HangulSearch.ComparatorsAreStrictWeakOrders | Sources/HangulSearch/Source/HangulSearch.swift:315-384 | each sort mode's comparison is a strict weak order, which `sorted(by:)` requires |
| HangulSearch.SortResults | Sources/HangulSearch/Source/HangulSearch.swift:95-106 | every sort mode returns a permutation of the matches and `.none` the matches themselves; hangul order is non-decreasing in folded key, reversed is non-increasing, edit distance is non-decreasing in distance to the query, and match position is non-decreasing in offset with items lacking an occurrence last |
| HangulSearch.SearchItems | Sources/HangulSearch/Source/HangulSearch.swift:74-109 | the empty query returns nothing in every mode; otherwise the result is a permutation of the mode's matches, exactly those matches when sorting is off, and ordered as the sort mode asks (folded key ascending or descending, edit distance ascending, match position ascending with items lacking an occurrence last) |
| SearchProperties.CachedSearchIsReference | Sources/HangulSearch/Source/HangulSearch.swift:149-261 | on a consistent engine, every mode's matcher returns what a reference computes from the items and the key selector alone |
| SearchProperties.MutatorsKeepSearchExact | Sources/HangulSearch/Source/HangulSearch.swift:111-137 | after `addItems`, `changeItems`, `changeSearchMode` or `changeKeySelector` the matcher agrees with the reference |
| SearchProperties.AddItemsAppendsMatches | Sources/HangulSearch/Source/HangulSearch.swift:120-123 | outside combined mode, matches after `addItems` are the old matches followed by the matches among the new items |
| SearchProperties.ChangeSortModeOnlyReorders | Sources/HangulSearch/Source/HangulSearch.swift:141-143 | changing the sort mode leaves the matches unchanged and the results a permutation of the previous ones |

## Left out

- Locale-dependent collation and Unicode case mapping: case folding is an abstract one-character-to-one-character function, and comparison is code-point order on folded keys.
- Grapheme clusters: the model treats every Unicode scalar as its own character. Swift's `String ==` and `contains` use canonical equivalence; the model compares scalar sequences exactly.
- Jamo.DecomposeKorean: for a `Character` made of a syllable followed by further scalars (for example "가" + U+11A8, or "가" + U+0301), the source emits only the jamo of the first scalar and drops the rest. The model decomposes the syllable and keeps the following scalars, because it has no grapheme segmentation. Likewise `getChosungIndex` reads only a `Character`'s first scalar. A leading conjoining jamo followed by a syllable (U+1100 then "가") is one `Character` with no chosung entry in the source, while the model adds ㄱ for the syllable. The edit distance counts scalars where the source counts `Character`s.
- Text.FirstOccurrence: an empty needle is found at offset 0, and `Contains`/`CaseInsensitiveContains` hold for it. Foundation's `range(of:)` returns nil for an empty needle, and `localizedCaseInsensitiveContains` requires a non-empty one. `searchItems` returns [] for the empty query before any search runs, and every derived needle of a non-empty query is non-empty. The difference shows only when a single search function is called directly with "".
- Throwing or side-effecting `keySelector`/`isEqual` closures and the class's reference semantics: the closures are pure functions and the engine is a value.
- Concurrency: the source is single-threaded and unsynchronised; nothing is modelled.
- HangulSearch.SortResults: claims only "sorted permutation" for every mode and nothing about the order of ties, because Swift's `sorted` is not documented as stable.
- HangulSearch.MatchRank: models the `Int.max` sentinel as a rank after every found offset, which differs from the source only for keys with at least `Int.max` UTF-16 units.
- Levenshtein.DistanceSymmetric: the triangle inequality of the edit distance is not proved.
- SearchProperties.AddItemsAppendsMatches: combined mode is excluded, because the deduplicated merge interleaves the three passes over old and new items.
- The test fixtures (JSON loading and decoding) and the package manifest are not part of this model.
