# grifeng: the word and suffix pages, in Dafny

grifeng is a small Express site that presents a dictionary. This project
models the logic its request handlers in `server.js` run between
`JSON.parse` and template rendering:

- **`/words`**: every record of words.json is expanded into one row per
  translation. A `translation` field holds one string or an array of them.
  Each row is the record with `translation` narrowed to one string. Rows are
  pushed into a dictionary `groupedWords`, keyed by the upper-cased first
  character of the translation, and an empty bucket is created when its
  first row arrives. The keys are then sorted, and for each key in that
  order the bucket is sorted in place by lower-cased translation and stored
  in the result object `alphabetised`.
- **`/words/:word`** and **`/suffixes/:suffix`**: the first record whose
  `word` (or `suffix`) equals the requested string is rendered; otherwise
  the handler redirects to `/404`.
- **`/suffixes`**: the records of suffixes.json are sorted in place by
  lower-cased suffix.

The files:

- `text.dfy` (module `Text`): ASCII case mapping, `charAt`, and code-point
  order `Le`/`Lt`. `Le` is proved a total order.
- `sorting.dfy` (module `Sorting`): `Array.prototype.sort` with a
  comparator. It is stable (ECMAScript 2019 and later), so its result is
  fixed. The function `StableSort` (an insertion sort) says what that result
  is: it is proved sorted, a permutation, and order-keeping among equal keys,
  and it is the only sequence with those properties. `SortInPlace` is an
  in-place insertion sort on an `array`, proved to leave exactly
  `StableSort` of the old contents.
- `property_keys.dfy` (module `PropertyKeys`): the order in which a plain
  JavaScript object lists its own string keys (ECMAScript, section
  10.1.11.1, OrdinaryOwnPropertyKeys). Array-index keys come first in
  numeric order, then the other keys in creation order.
- `lookup.dfy` (module `Lookup`): `Array.prototype.find`, and the reply of a
  detail handler (render or redirect).
- `words.dfy` (module `Words`): the `/words` handler, described twice:
  - as imperative code that follows the source's loops: `GroupWords`,
    `Collect`, `PushEntry`, `PushRow`, `SortBuckets` and `SortBucket`, with the
    dictionary as a `map` state variable and the buckets sorted through an
    `array`;
  - as specification functions (`Pushes`, `Buckets`, `Created`,
    `SortedLetters` and `Alphabetised`), each method being proved equal to
    them. The properties of the page are lemmas about those functions.

  The module also holds the `/words/:word` lookup and worked examples.
- `suffixes.dfy` (module `Suffixes`): the two suffix handlers.

`localeCompare` is modelled as ordinal comparison: code-point order of the
two lower-cased strings. Equal lower-cased strings compare as 0, so the
stable sort keeps them in push order.

Two behaviours of the code that a reader of the page might not expect, both
of which the model keeps:

- An empty translation gives the key `""`, since `charAt(0)` is `""`. That
  key sorts first. The key of a translation starting with a non-letter is
  that character (a digit, `(`, …), not a letter.
- The result object is meant to list its keys in sorted order, but a
  JavaScript object lists array-index keys (digits) first. See "Findings".

## Model

| member | source | states |
|---|---|---|
| Text.FirstLetter | server.js:44 | The bucket key has at most one character. It is `""` exactly when the translation is empty, otherwise the upper-cased first character; a lower-case ASCII letter gives an upper-case letter. |
| Text.LeTotal | server.js:54 | Any two strings are comparable in the lexicographic code-point order that stands for the default sort order. |
| Text.LeTransitive | server.js:54 | The code-point order is transitive. |
| Text.LeAntisymmetric | server.js:54 | Two strings each ordered no later than the other are equal. |
| Text.LtIsStrictLe | server.js:54 | Sorting strictly before means no later and not equal. |
| Sorting.StableSortSorted | server.js:57 | A stable sort by a key leaves the elements ordered by that key. |
| Sorting.StableSortPermutes | server.js:57 | A stable sort keeps the length and the multiset of the elements. |
| Sorting.StableSortStable | server.js:57 | Elements with equal keys keep their relative order. |
| Sorting.StableSortCharacterised | server.js:57 | A sequence equals the stable sort of s exactly when it is ordered by key and lists each key's elements in s's order: the result of a stable sort is determined. |
| Sorting.SortInPlace | server.js:57 | Sorting an array in place by a key leaves exactly the stable sort of its old contents. |
| PropertyKeys.PropertyOrderPermutes | server.js:54 | `Object.keys` lists every created key once and no other key. |
| PropertyKeys.PropertyOrderOfNamedKeys | server.js:54 | Without array-index keys, an object lists its keys in creation order. |
| PropertyKeys.SingleCharacterIndex | server.js:44 | A one-character key is an array index exactly when it is a digit. |
| PropertyKeys.NumericOrderIsNumeric | server.js:54 | Array-index keys are listed by numeric value. |
| Lookup.Find | server.js:78 | `find` gives undefined exactly when no element satisfies the test, and otherwise the first element that does. |
| Words.Translations | server.js:36-41 | A scalar translation is a one-element list; an array translation is used as is, with its order and length. |
| Words.GroupWords | server.js:34-61 | The grouping loops, key sort and reduce compute exactly `Alphabetised(words)`. |
| Words.Collect | server.js:35-50 | After the nested loops the dictionary holds a bucket per created key, with the keys created in first-arrival order, as `Buckets` and `Created` of all pushed rows. |
| Words.PushRow | server.js:44-48 | One step of the inner loop creates the bucket of the row's key if it is missing and appends the row: the dictionary and the key creation order afterwards are those of the rows so far plus this row. |
| Words.PushEntry | server.js:43-49 | One entry's inner loop creates missing buckets and appends one row per translation: the dictionary afterwards is that of the rows so far followed by the entry's rows. |
| Words.SortBuckets | server.js:54-61 | The reduce stores each key, in the given order, with its pushed rows sorted by lower-cased translation. |
| Words.SortBucket | server.js:57 | Sorting a bucket in place by lower-cased translation gives its stable sort. |
| Words.BucketAt | server.js:44-48 | A key is in the dictionary exactly when it was created, exactly when some pushed row's translation gives that key. Its bucket holds exactly those rows, in push order. |
| Words.LettersOfCreated | server.js:54 | The sorted key list is a permutation of the created keys, has no repeats and is in code-point order. |
| Words.PushesLength | server.js:35-49 | As many rows are pushed as there are translations over all entries. |
| Words.PushOrder | server.js:35-49 | Translation j of entry i is pushed at position (translations of earlier entries + j), as entry i narrowed to that translation: entry-then-translation order. |
| Words.PushesFromEntries | server.js:48 | A row is pushed exactly when it is some entry with every field kept except `translation`, narrowed to one of that entry's translations: the copy that `MakeRow` builds. |
| Words.RowsPreserved | server.js:35-61 | The result holds every pushed row as often as it was pushed and nothing else; the total number of rows is the number of translations. |
| Words.LettersAscending | server.js:54 | The keys, in the order the reduce stores them, are strictly ascending in code-point order; the object itself lists them in `EnumeratedLetters` order (see `Words.DigitLetterListedFirst`). |
| Words.LettersAreRowLetters | server.js:54 | A key appears in the result exactly when some pushed row's translation gives that key. |
| Words.GroupsNonEmpty | server.js:45-48 | Every bucket in the result holds at least one row. |
| Words.RowsComeFromEntries | server.js:44-48 | Every row of the result sits under the key of its own translation and is an entry narrowed to one of its translations. |
| Words.EveryTranslationPlaced | server.js:43-48 | Each translation of each entry appears, as that entry narrowed to it, under the key of that translation (key `""` for an empty one). |
| Words.BucketsOrdered | server.js:57 | Each bucket is ordered by lower-cased translation. It is a permutation of the rows pushed under its key, and rows with equal lower-cased translations keep their push order. |
| Words.DigitLetterListedFirst | server.js:54-61 | With translations "1st" and "(to) be", the keys sort as "(", "1", but the result object lists "1" first. |
| Words.EnumeratedLettersWithoutDigits | server.js:54-61 | When no translation starts with a digit, the result object lists its keys in sorted order. |
| Words.NoEntriesNoGroups | server.js:34-61 | No entries give an empty result. |
| Words.GroupingExample | server.js:34-61 | "hi"/"hello" and "bye"/["goodbye", "farewell"] give keys F, G, H with one row each. |
| Words.StableGroupingExample | server.js:57 | "a"/"Apple" and "b"/"apple" share key A and keep their push order. |
| Words.WordPage | server.js:78-82 | The word page renders the first entry whose `word` equals the requested one, and redirects to `/404` exactly when there is none. |
| Suffixes.SortSuffixes | server.js:99 | The suffix array is left ordered by lower-cased suffix, as a permutation of its old contents, stable among equal keys, and equal to their stable sort. |
| Suffixes.SuffixPage | server.js:116-120 | The suffix page renders the first record whose `suffix` equals the requested one, and redirects to `/404` exactly when there is none. |

## Left out

- Express routing, static files, the redirect mechanics and the 404 page (server.js:10, 19-21, 128-140): framework code. A redirect is modelled only as the value `Redirect("/404")`.
- Reading words.json and suffixes.json, the HTTP 500 branches and `console.error` (server.js:25-30, 70-75, 91-96, 108-113): input/output. The parsed records are the handlers' parameters.
- `JSON.parse`: a library call. Records are typed values (`Entry`, `Suffix`). Malformed records are not modelled: a missing `translation`, or a translation that is not a string or an array of strings.
- Fields other than `word`, `translation` and `suffix` are modelled as a `map<string, string>` that is copied unread.
- Handlebars compilation and rendering (server.js:13-16, 63, 84, 100, 122): library calls. The templates are not part of this model, so neither is what they do with the order of `alphabetised`.
- `localeCompare` locale collation: not visible in the code. Ordinal comparison is used instead.
- Unicode case mapping beyond ASCII: `toUpperCase` and `toLowerCase` change only ASCII letters here. Mappings that lengthen a string (such as "ß" to "SS") are not modelled.
- Strings are sequences of Dafny characters (code points) rather than UTF-16 code units. A first character outside the Basic Multilingual Plane is one key here, not half a surrogate pair. The order is that of code points, so a character above U+FFFF sorts after one in U+E000-U+FFFF, while UTF-16 code-unit order (the order of JavaScript's default sort) puts it before them, because its leading surrogate lies in U+D800-U+DBFF.
- The sorting algorithm V8 actually uses: any stable sort gives the same result (`Sorting.StableSortCharacterised`), so an insertion sort stands for it.
- Input records are not mutated: this holds by value semantics in the model and is not stated separately. All rows are fresh copies, and only the fresh bucket arrays and the suffix array are sorted.
- ecosystem.config.js: deployment configuration for pm2, with no logic. Its process-level concurrency is not modelled.

## Findings

| source | as written | input that shows it | evidently intended | confidence | as-written member | corrected member |
|---|---|---|---|---|---|---|
| server.js:54-61 | The sorted keys are stored into a fresh object by `reduce`. The object then lists array-index keys (digits) before all other keys, whatever their insertion order. | Translations "1st" and "(to) be": sorted keys "(", "1"; the object lists "1", "(". | Keys listed in sorted order, as the comment at server.js:53 describes. | not executed; medium (flips only when a translation starts with a digit and another with a character ordered before "0", such as "(" or the empty key) | Words.DigitLetterListedFirst (with Words.EnumeratedLetters) | Words.GroupWords, which returns the groups as a sequence in sorted key order (Words.LettersAscending) |
