/** The words pages: the `/words` handler, which expands every record of
    words.json into one row per translation, buckets the rows by the first
    letter of their translation and sorts keys and buckets, and the
    `/words/:word` handler, which looks one record up. */
module Words {
  import opened Text
  import opened Sorting
  import opened PropertyKeys
  import opened Lookup

  /** The `translation` field holds either one string or an array of them. */
  datatype Translation = Scalar(text: string) | Multiple(texts: seq<string>)

  /** A record of words.json. `details` stands for its other fields
      (pronunciation, example sentences), which the handlers copy unread. */
  datatype Entry = Entry(word: string, translation: Translation, details: map<string, string>)

  /** `{...word, translation}`: an entry narrowed to one of its translations. */
  datatype Row = Row(word: string, translation: string, details: map<string, string>)

  /** One key of the `alphabetised` object with its array of rows. */
  datatype Group = Group(letter: string, rows: seq<Row>)

  /** The translations of an entry as a list: a scalar becomes a one-element
      list, an array is used as it is. */
  function Translations(e: Entry): (ts: seq<string>)
    ensures e.translation.Scalar? ==> ts == [e.translation.text]
    ensures e.translation.Multiple? ==> ts == e.translation.texts
  {
    match e.translation
    case Scalar(t) => [t]
    case Multiple(ts) => ts
  }

  /** The row pushed for one translation (server.js:48): a copy of the entry
      with every field kept and the translation replaced by that one string. */
  function MakeRow(e: Entry, t: string): Row {
    Row(e.word, t, e.details)
  }

  /** r is e with its translation narrowed to one of e's translations. */
  predicate ExpandedFrom(r: Row, e: Entry) {
    r.word == e.word && r.details == e.details && r.translation in Translations(e)
  }

  /** The rows one entry pushes, in the order of its translations. */
  function Expand(e: Entry): seq<Row> {
    var ts := Translations(e);
    seq(|ts|, i requires 0 <= i < |ts| => MakeRow(e, ts[i]))
  }

  /** Every row the nested forEach loops push, in push order. */
  function Pushes(words: seq<Entry>): seq<Row> {
    if words == [] then []
    else Pushes(words[..|words| - 1]) + Expand(words[|words| - 1])
  }

  /** The number of translations over all entries. */
  function TranslationCount(words: seq<Entry>): nat {
    if words == [] then 0
    else TranslationCount(words[..|words| - 1]) + |Translations(words[|words| - 1])|
  }

  /** The bucket key of a row. */
  function RowLetter(r: Row): string {
    FirstLetter(r.translation)
  }

  /** What the in-bucket comparator compares. */
  function RowOrder(r: Row): string {
    ToLower(r.translation)
  }

  /** What the default sort of the keys compares. */
  function Itself(s: string): string {
    s
  }

  /** The `groupedWords` dictionary after the given rows were pushed: a
      bucket is created, empty, when its first row arrives. */
  function Buckets(rows: seq<Row>): map<string, seq<Row>> {
    if rows == [] then map[]
    else
      var buckets := Buckets(rows[..|rows| - 1]);
      var row := rows[|rows| - 1];
      var letter := RowLetter(row);
      buckets[letter := (if letter in buckets then buckets[letter] else []) + [row]]
  }

  /** The keys of `groupedWords` in the order they were created. */
  function Created(rows: seq<Row>): seq<string> {
    if rows == [] then []
    else
      var created := Created(rows[..|rows| - 1]);
      var letter := RowLetter(rows[|rows| - 1]);
      if letter in created then created else created + [letter]
  }

  /** `Object.keys(groupedWords).sort()`. */
  function SortedLetters(words: seq<Entry>): seq<string> {
    StableSort(PropertyOrder(Created(Pushes(words))), Itself)
  }

  /** What the reduce builds: each key in sorted order with its rows sorted
      by lower-cased translation. */
  function Alphabetised(words: seq<Entry>): seq<Group> {
    GroupsOf(Pushes(words), SortedLetters(words))
  }

  /** Each of the letters with the rows under it sorted by lower-cased
      translation. */
  function GroupsOf(rows: seq<Row>, letters: seq<string>): seq<Group> {
    seq(|letters|, i requires 0 <= i < |letters| =>
      Group(letters[i], StableSort(WithKey(rows, RowLetter, letters[i]), RowOrder)))
  }

  /** The rows of all groups, one group after the other. */
  function Flatten(groups: seq<Group>): seq<Row> {
    if groups == [] then [] else groups[0].rows + Flatten(groups[1..])
  }

  /** The `/words` handler between JSON.parse and rendering. */
  method GroupWords(words: seq<Entry>) returns (alphabetised: seq<Group>)
    ensures alphabetised == Alphabetised(words)
  {
    var grouped, created := Collect(words);
    var keys := PropertyOrder(created);
    var sorted := new string[|keys|](i requires 0 <= i < |keys| => keys[i]);
    assert sorted[..] == keys;
    SortInPlace(sorted, Itself);
    BucketsOfSortedLetters(words);
    alphabetised := SortBuckets(grouped, sorted[..], Pushes(words));
  }

  /** The nested forEach loops: every translation of every entry pushed, as
      a row, into the bucket of its first letter. */
  method Collect(words: seq<Entry>) returns (grouped: map<string, seq<Row>>, created: seq<string>)
    ensures grouped == Buckets(Pushes(words))
    ensures created == Created(Pushes(words))
  {
    grouped, created := map[], [];
    for n := 0 to |words|
      invariant grouped == Buckets(Pushes(words[..n]))
      invariant created == Created(Pushes(words[..n]))
    {
      grouped, created := PushEntry(words[n], grouped, created, Pushes(words[..n]));
      assert words[..n + 1][..n] == words[..n];
    }
    assert words[..|words|] == words;
  }

  /** The inner forEach: one row per translation of one entry. */
  method PushEntry(word: Entry, grouped0: map<string, seq<Row>>, created0: seq<string>, ghost rows: seq<Row>)
    returns (grouped: map<string, seq<Row>>, created: seq<string>)
    requires grouped0 == Buckets(rows) && created0 == Created(rows)
    ensures grouped == Buckets(rows + Expand(word))
    ensures created == Created(rows + Expand(word))
  {
    grouped, created := grouped0, created0;
    var translations := Translations(word);
    ghost var pushed := rows;
    ExpandStep(rows, word, 0);
    for t := 0 to |translations|
      invariant pushed == rows + Expand(word)[..t]
      invariant grouped == Buckets(pushed) && created == Created(pushed)
    {
      var translation := translations[t];
      var row := MakeRow(word, translation);
      grouped, created := PushRow(grouped, created, FirstLetter(translation), row, pushed);
      ExpandStep(rows, word, t);
      pushed := pushed + [row];
    }
    ExpandStep(rows, word, |translations|);
  }

  /** The body of the inner forEach: create the bucket if it is missing, then
      push the row into it. */
  method PushRow(grouped0: map<string, seq<Row>>, created0: seq<string>, firstLetter: string, row: Row, ghost rows: seq<Row>)
    returns (grouped: map<string, seq<Row>>, created: seq<string>)
    requires grouped0 == Buckets(rows) && created0 == Created(rows)
    requires firstLetter == RowLetter(row)
    ensures grouped == Buckets(rows + [row])
    ensures created == Created(rows + [row])
  {
    grouped, created := grouped0, created0;
    BucketAt(rows, firstLetter);
    if firstLetter !in grouped {
      grouped := grouped[firstLetter := []];
      created := created + [firstLetter];
    }
    grouped := grouped[firstLetter := grouped[firstLetter] + [row]];
    assert grouped == grouped0[firstLetter :=
      (if firstLetter in grouped0 then grouped0[firstLetter] else []) + [row]];
    PushOne(rows, row);
  }

  lemma ExpandStep(rows: seq<Row>, e: Entry, t: int)
    requires 0 <= t <= |Translations(e)|
    ensures t == 0 ==> rows + Expand(e)[..t] == rows
    ensures t == |Translations(e)| ==> rows + Expand(e)[..t] == rows + Expand(e)
    ensures t < |Translations(e)| ==>
      rows + Expand(e)[..t + 1] == rows + Expand(e)[..t] + [MakeRow(e, Translations(e)[t])]
  {
    if t < |Translations(e)| {
      assert Expand(e)[..t + 1] == Expand(e)[..t] + [Expand(e)[t]];
    }
    assert Expand(e)[..|Translations(e)|] == Expand(e);
  }

  lemma PushOne(rows: seq<Row>, row: Row)
    ensures Buckets(rows + [row]) == Buckets(rows)[RowLetter(row) :=
      (if RowLetter(row) in Buckets(rows) then Buckets(rows)[RowLetter(row)] else []) + [row]]
    ensures Created(rows + [row]) ==
      if RowLetter(row) in Created(rows) then Created(rows) else Created(rows) + [RowLetter(row)]
  {
    assert (rows + [row])[..|rows|] == rows;
  }

  /** The reduce: for each key in sorted order, its bucket sorted in place by
      lower-cased translation. */
  method SortBuckets(grouped: map<string, seq<Row>>, keys: seq<string>, ghost rows: seq<Row>)
    returns (alphabetised: seq<Group>)
    requires forall k :: k in keys ==> k in grouped && grouped[k] == WithKey(rows, RowLetter, k)
    ensures alphabetised == GroupsOf(rows, keys)
  {
    alphabetised := [];
    for i := 0 to |keys|
      invariant alphabetised == GroupsOf(rows, keys)[..i]
    {
      var key := keys[i];
      var bucket := SortBucket(grouped[key]);
      assert GroupsOf(rows, keys)[..i + 1] == GroupsOf(rows, keys)[..i] + [Group(key, bucket)];
      alphabetised := alphabetised + [Group(key, bucket)];
    }
    assert GroupsOf(rows, keys)[..|keys|] == GroupsOf(rows, keys);
  }

  /** Every sorted key names a bucket, and that bucket holds the rows pushed
      under it. */
  lemma BucketsOfSortedLetters(words: seq<Entry>)
    ensures forall k :: k in SortedLetters(words) ==>
      k in Buckets(Pushes(words)) && Buckets(Pushes(words))[k] == WithKey(Pushes(words), RowLetter, k)
  {
    var rows := Pushes(words);
    LettersOfCreated(words);
    forall k | k in SortedLetters(words)
      ensures k in Buckets(rows) && Buckets(rows)[k] == WithKey(rows, RowLetter, k)
    {
      assert k in multiset(Created(rows));
      BucketAt(rows, k);
    }
  }

  /** `groupedWords[key].sort(...)`: the bucket array sorted in place by
      lower-cased translation. */
  method SortBucket(bucket: seq<Row>) returns (sorted: seq<Row>)
    ensures sorted == StableSort(bucket, RowOrder)
  {
    var a := new Row[|bucket|](j requires 0 <= j < |bucket| => bucket[j]);
    assert a[..] == bucket;
    SortInPlace(a, RowOrder);
    sorted := a[..];
  }

  /** The `/words/:word` handler (server.js:78-84): the first entry whose word
      is the requested one is rendered; without one the reply is a redirect to
      the not-found page. */
  function WordPage(words: seq<Entry>, requested: string): (reply: Reply<Entry>)
    ensures reply.Redirect? <==> forall i :: 0 <= i < |words| ==> words[i].word != requested
    ensures reply.Redirect? ==> reply.location == "/404"
    ensures reply.Render? ==>
      exists i :: 0 <= i < |words| && words[i] == reply.record && words[i].word == requested
        && forall j :: 0 <= j < i ==> words[j].word != requested
  {
    match Find(words, (e: Entry) => e.word == requested)
    case Some(e) => Render(e)
    case None => Redirect("/404")
  }

  // ----- The dictionary and its keys -----

  /** The dictionary holds one bucket per key created, and the bucket of key
      k holds exactly the pushed rows whose translation starts with k, in push
      order. */
  lemma BucketAt(rows: seq<Row>, k: string)
    ensures k in Buckets(rows) <==> k in Created(rows)
    ensures k in Created(rows) <==> exists i :: 0 <= i < |rows| && RowLetter(rows[i]) == k
    ensures k in Buckets(rows) ==> Buckets(rows)[k] == WithKey(rows, RowLetter, k)
  {
    BucketsAreCreated(rows, k);
    CreatedFromRows(rows, k);
    BucketContents(rows, k);
  }

  lemma {:induction false} BucketsAreCreated(rows: seq<Row>, k: string)
    ensures k in Buckets(rows) <==> k in Created(rows)
  {
    if rows != [] {
      BucketsAreCreated(rows[..|rows| - 1], k);
    }
  }

  lemma {:induction false} CreatedFromRows(rows: seq<Row>, k: string)
    ensures k in Created(rows) <==> exists i :: 0 <= i < |rows| && RowLetter(rows[i]) == k
  {
    if rows != [] {
      var init := rows[..|rows| - 1];
      CreatedFromRows(init, k);
      if exists i :: 0 <= i < |rows| && RowLetter(rows[i]) == k {
        var i :| 0 <= i < |rows| && RowLetter(rows[i]) == k;
        if i < |init| {
          assert RowLetter(init[i]) == k;
        }
      }
      if exists i :: 0 <= i < |init| && RowLetter(init[i]) == k {
        var i :| 0 <= i < |init| && RowLetter(init[i]) == k;
        assert RowLetter(rows[i]) == k;
      }
    }
  }

  lemma {:induction false} BucketContents(rows: seq<Row>, k: string)
    ensures k in Buckets(rows) ==> Buckets(rows)[k] == WithKey(rows, RowLetter, k)
  {
    if rows != [] {
      var init, last := rows[..|rows| - 1], rows[|rows| - 1];
      BucketContents(init, k);
      assert rows == init + [last];
      WithKeyConcat(init, [last], RowLetter, k);
      if k !in Buckets(init) {
        BucketsAreCreated(init, k);
        CreatedFromRows(init, k);
        WithKeyNone(init, RowLetter, k);
      }
    }
  }

  /** Keys are created once each. */
  lemma {:induction false} CreatedDistinct(rows: seq<Row>)
    ensures Distinct(Created(rows))
  {
    if rows != [] {
      CreatedDistinct(rows[..|rows| - 1]);
    }
  }

  /** The sorted keys are the created keys, each once, in ascending order. */
  lemma LettersOfCreated(words: seq<Entry>)
    ensures multiset(SortedLetters(words)) == multiset(Created(Pushes(words)))
    ensures Distinct(SortedLetters(words))
    ensures SortedBy(SortedLetters(words), Itself)
  {
    var created := Created(Pushes(words));
    PropertyOrderPermutes(created);
    StableSortPermutes(PropertyOrder(created), Itself);
    StableSortSorted(PropertyOrder(created), Itself);
    CreatedDistinct(Pushes(words));
    DistinctPermutation(created, SortedLetters(words));
  }

  // ----- Rows -----

  lemma {:induction false} PushesLength(words: seq<Entry>)
    ensures |Pushes(words)| == TranslationCount(words)
  {
    if words != [] {
      PushesLength(words[..|words| - 1]);
    }
  }

  /** Rows are pushed entry by entry and, within an entry, translation by
      translation: translation j of entry i is row number
      TranslationCount(words[..i]) + j. */
  lemma {:induction false} PushOrder(words: seq<Entry>, i: int, j: int)
    requires 0 <= i < |words| && 0 <= j < |Translations(words[i])|
    ensures TranslationCount(words[..i]) + j < |Pushes(words)|
    ensures Pushes(words)[TranslationCount(words[..i]) + j] == MakeRow(words[i], Translations(words[i])[j])
  {
    PushesPrefix(words, i + 1);
    PushesSnoc(words, i);
    PushesLength(words[..i]);
    ExpandAt(words[i], j);
    PrefixAt(Pushes(words[..i]), Expand(words[i]), Pushes(words), j);
  }

  lemma PrefixAt<T>(a: seq<T>, b: seq<T>, c: seq<T>, j: int)
    requires a + b <= c && 0 <= j < |b|
    ensures |a| + j < |c| && c[|a| + j] == b[j]
  {
    assert c[|a| + j] == (a + b)[|a| + j];
  }

  /** Entry i pushes its rows right after those of the entries before it. */
  lemma PushesSnoc(words: seq<Entry>, i: int)
    requires 0 <= i < |words|
    ensures Pushes(words[..i + 1]) == Pushes(words[..i]) + Expand(words[i])
  {
    assert words[..i + 1][..i] == words[..i];
  }

  lemma ExpandAt(e: Entry, j: int)
    requires 0 <= j < |Translations(e)|
    ensures |Expand(e)| == |Translations(e)| && Expand(e)[j] == MakeRow(e, Translations(e)[j])
  {
  }

  /** The rows of the first i entries are pushed before all others. */
  lemma {:induction false} PushesPrefix(words: seq<Entry>, i: int)
    requires 0 <= i <= |words|
    ensures Pushes(words[..i]) <= Pushes(words)
  {
    if i == |words| {
      assert words[..i] == words;
    } else {
      var init := words[..|words| - 1];
      PushesPrefix(init, i);
      assert init[..i] == words[..i];
      assert Pushes(words) == Pushes(init) + Expand(words[|words| - 1]);
    }
  }

  /** The pushed rows are exactly the entries narrowed to their translations. */
  lemma PushesFromEntries(words: seq<Entry>, r: Row)
    ensures r in Pushes(words) <==> exists i :: 0 <= i < |words| && ExpandedFrom(r, words[i])
  {
    if r in Pushes(words) {
      PushedFrom(words, r);
    }
    if exists i :: 0 <= i < |words| && ExpandedFrom(r, words[i]) {
      var i :| 0 <= i < |words| && ExpandedFrom(r, words[i]);
      PushedIfExpanded(words, i, r);
    }
  }

  lemma {:induction false} PushedFrom(words: seq<Entry>, r: Row)
    requires r in Pushes(words)
    ensures exists i :: 0 <= i < |words| && ExpandedFrom(r, words[i])
  {
    var init, last := words[..|words| - 1], words[|words| - 1];
    assert Pushes(words) == Pushes(init) + Expand(last);
    if r in Pushes(init) {
      PushedFrom(init, r);
      var i :| 0 <= i < |init| && ExpandedFrom(r, init[i]);
      assert init[i] == words[i];
    } else {
      ExpandMember(last, r);
      assert ExpandedFrom(r, words[|words| - 1]);
    }
  }

  lemma PushedIfExpanded(words: seq<Entry>, i: int, r: Row)
    requires 0 <= i < |words| && ExpandedFrom(r, words[i])
    ensures r in Pushes(words)
  {
    PushesPrefix(words, i + 1);
    PushesSnoc(words, i);
    ExpandMember(words[i], r);
    var upto := Pushes(words[..i + 1]);
    assert r in upto;
    var p :| 0 <= p < |upto| && upto[p] == r;
    assert Pushes(words)[p] == r;
  }

  /** The rows of one entry are that entry narrowed to each of its translations. */
  lemma ExpandMember(e: Entry, r: Row)
    ensures r in Expand(e) <==> ExpandedFrom(r, e)
  {
    var ts := Translations(e);
    if r in Expand(e) {
      var j :| 0 <= j < |ts| && Expand(e)[j] == r;
    }
    if ExpandedFrom(r, e) {
      var j :| 0 <= j < |ts| && ts[j] == r.translation;
      assert Expand(e)[j] == r;
    }
  }

  // ----- The result -----

  /** The rows of the given keys' buckets, key after key. */
  function Gather(rows: seq<Row>, letters: seq<string>): seq<Row> {
    if letters == [] then []
    else WithKey(rows, RowLetter, letters[0]) + Gather(rows, letters[1..])
  }

  lemma {:induction false} GatherCons(r: Row, rest: seq<Row>, letters: seq<string>)
    requires Distinct(letters)
    ensures multiset(Gather([r] + rest, letters))
         == multiset(Gather(rest, letters)) + (if RowLetter(r) in letters then multiset{r} else multiset{})
  {
    if letters != [] {
      GatherCons(r, rest, letters[1..]);
      assert ([r] + rest)[0] == r && ([r] + rest)[1..] == rest;
      if RowLetter(r) == letters[0] {
        assert RowLetter(r) !in letters[1..];
      }
    }
  }

  lemma {:induction false} GatherAll(rows: seq<Row>, letters: seq<string>)
    requires Distinct(letters)
    requires forall i :: 0 <= i < |rows| ==> RowLetter(rows[i]) in letters
    ensures multiset(Gather(rows, letters)) == multiset(rows)
  {
    if rows == [] {
      GatherEmpty(letters);
    } else {
      GatherAll(rows[1..], letters);
      assert rows == [rows[0]] + rows[1..];
      GatherCons(rows[0], rows[1..], letters);
    }
  }

  lemma {:induction false} GatherEmpty(letters: seq<string>)
    ensures Gather([], letters) == []
  {
    if letters != [] {
      GatherEmpty(letters[1..]);
    }
  }

  lemma {:induction false} FlattenGather(words: seq<Entry>, m: int)
    requires 0 <= m <= |SortedLetters(words)|
    ensures multiset(Flatten(Alphabetised(words)[m..]))
         == multiset(Gather(Pushes(words), SortedLetters(words)[m..]))
    decreases |SortedLetters(words)| - m
  {
    var groups, letters := Alphabetised(words), SortedLetters(words);
    if m < |letters| {
      FlattenGather(words, m + 1);
      assert groups[m..][1..] == groups[m + 1..];
      assert letters[m..][1..] == letters[m + 1..];
      StableSortPermutes(WithKey(Pushes(words), RowLetter, letters[m]), RowOrder);
    } else {
      assert groups[m..] == [];
      assert letters[m..] == [];
    }
  }

  /** Every pushed row appears in the result exactly as often as it was
      pushed, and nothing else does; there are as many rows as translations. */
  lemma RowsPreserved(words: seq<Entry>)
    ensures multiset(Flatten(Alphabetised(words))) == multiset(Pushes(words))
    ensures |Flatten(Alphabetised(words))| == TranslationCount(words)
  {
    var rows, letters := Pushes(words), SortedLetters(words);
    LettersOfCreated(words);
    forall i | 0 <= i < |rows|
      ensures RowLetter(rows[i]) in letters
    {
      BucketAt(rows, RowLetter(rows[i]));
      assert RowLetter(rows[i]) in multiset(Created(rows));
    }
    GatherAll(rows, letters);
    FlattenGather(words, 0);
    assert Alphabetised(words)[0..] == Alphabetised(words);
    assert letters[0..] == letters;
    PushesLength(words);
    assert |Flatten(Alphabetised(words))| == |multiset(Flatten(Alphabetised(words)))|;
  }

  /** Keys are listed in strictly ascending code-point order. */
  lemma LettersAscending(words: seq<Entry>)
    ensures forall i, j :: 0 <= i < j < |Alphabetised(words)| ==>
      Lt(Alphabetised(words)[i].letter, Alphabetised(words)[j].letter)
  {
    var letters := SortedLetters(words);
    LettersOfCreated(words);
    forall i, j | 0 <= i < j < |letters|
      ensures Lt(letters[i], letters[j])
    {
      assert Le(Itself(letters[i]), Itself(letters[j]));
      LtIsStrictLe(letters[i], letters[j]);
    }
  }

  /** The keys of the result are exactly the keys of the pushed rows. */
  lemma LettersAreRowLetters(words: seq<Entry>, k: string)
    ensures (exists m :: 0 <= m < |Alphabetised(words)| && Alphabetised(words)[m].letter == k)
        <==> exists r :: r in Pushes(words) && RowLetter(r) == k
  {
    var rows, letters := Pushes(words), SortedLetters(words);
    var groups := Alphabetised(words);
    assert groups == GroupsOf(rows, letters);
    GroupLetter(rows, letters, k);
    assert (exists m :: 0 <= m < |groups| && groups[m].letter == k) <==> k in letters;
    SortedLetterCreated(words, k);
    CreatedFromRows(rows, k);
    RowWithLetter(rows, k);
  }

  /** A key is among the sorted keys exactly when it was created. */
  lemma SortedLetterCreated(words: seq<Entry>, k: string)
    ensures k in SortedLetters(words) <==> k in Created(Pushes(words))
  {
    LettersOfCreated(words);
    assert k in SortedLetters(words) <==> k in multiset(Created(Pushes(words)));
  }

  lemma GroupLetter(rows: seq<Row>, letters: seq<string>, k: string)
    ensures (exists m :: 0 <= m < |GroupsOf(rows, letters)| && GroupsOf(rows, letters)[m].letter == k)
        <==> k in letters
  {
    var groups := GroupsOf(rows, letters);
    if k in letters {
      var m :| 0 <= m < |letters| && letters[m] == k;
      assert groups[m].letter == k;
    }
    if exists m :: 0 <= m < |groups| && groups[m].letter == k {
      var m :| 0 <= m < |groups| && groups[m].letter == k;
      assert letters[m] == k;
    }
  }

  lemma RowWithLetter(rows: seq<Row>, k: string)
    ensures (exists r :: r in rows && RowLetter(r) == k)
        <==> exists i :: 0 <= i < |rows| && RowLetter(rows[i]) == k
  {
    if exists r :: r in rows && RowLetter(r) == k {
      var r :| r in rows && RowLetter(r) == k;
      var i :| 0 <= i < |rows| && rows[i] == r;
    }
    if exists i :: 0 <= i < |rows| && RowLetter(rows[i]) == k {
      var i :| 0 <= i < |rows| && RowLetter(rows[i]) == k;
      assert rows[i] in rows;
    }
  }

  /** Every bucket holds a row: buckets are created only to receive one. */
  lemma GroupsNonEmpty(words: seq<Entry>)
    ensures forall m :: 0 <= m < |Alphabetised(words)| ==> Alphabetised(words)[m].rows != []
  {
    var rows, letters := Pushes(words), SortedLetters(words);
    LettersOfCreated(words);
    forall m | 0 <= m < |letters|
      ensures Alphabetised(words)[m].rows != []
    {
      var k := letters[m];
      assert k in multiset(Created(rows));
      BucketAt(rows, k);
      var i :| 0 <= i < |rows| && RowLetter(rows[i]) == k;
      WithKeyMember(rows, RowLetter, k, i);
      StableSortPermutes(WithKey(rows, RowLetter, k), RowOrder);
    }
  }

  /** Every row of the result sits under the key of its own translation, and
      is one of the entries narrowed to one of its translations. */
  lemma RowsComeFromEntries(words: seq<Entry>)
    ensures forall m, r :: 0 <= m < |Alphabetised(words)| && r in Alphabetised(words)[m].rows ==>
      RowLetter(r) == Alphabetised(words)[m].letter
      && exists i :: 0 <= i < |words| && ExpandedFrom(r, words[i])
  {
    var rows, letters := Pushes(words), SortedLetters(words);
    forall m, r | 0 <= m < |letters| && r in Alphabetised(words)[m].rows
      ensures RowLetter(r) == letters[m]
      ensures exists i :: 0 <= i < |words| && ExpandedFrom(r, words[i])
    {
      var bucket := WithKey(rows, RowLetter, letters[m]);
      StableSortPermutes(bucket, RowOrder);
      assert r in multiset(bucket);
      WithKeyKeys(rows, RowLetter, letters[m]);
      PushesFromEntries(words, r);
    }
  }

  /** Each translation of each entry is placed, as that entry narrowed to it,
      under the key of that translation. */
  lemma EveryTranslationPlaced(words: seq<Entry>, i: int, t: string)
    requires 0 <= i < |words| && t in Translations(words[i])
    ensures exists m ::
      && 0 <= m < |Alphabetised(words)|
      && Alphabetised(words)[m].letter == FirstLetter(t)
      && MakeRow(words[i], t) in Alphabetised(words)[m].rows
  {
    var rows := Pushes(words);
    var r := MakeRow(words[i], t);
    assert ExpandedFrom(r, words[i]);
    PushedIfExpanded(words, i, r);
    var p :| 0 <= p < |rows| && rows[p] == r;
    RowInGroup(words, p);
  }

  /** Every pushed row is in the group of its own key. */
  lemma RowInGroup(words: seq<Entry>, p: int)
    requires 0 <= p < |Pushes(words)|
    ensures exists m ::
      && 0 <= m < |Alphabetised(words)|
      && Alphabetised(words)[m].letter == RowLetter(Pushes(words)[p])
      && Pushes(words)[p] in Alphabetised(words)[m].rows
  {
    var rows, letters := Pushes(words), SortedLetters(words);
    var k := RowLetter(rows[p]);
    CreatedFromRows(rows, k);
    LettersOfCreated(words);
    assert k in multiset(Created(rows));
    assert k in multiset(letters);
    var m :| 0 <= m < |letters| && letters[m] == k;
    var bucket := WithKey(rows, RowLetter, k);
    WithKeyMember(rows, RowLetter, k, p);
    StableSortPermutes(bucket, RowOrder);
    assert rows[p] in multiset(StableSort(bucket, RowOrder));
    assert Alphabetised(words)[m] == Group(k, StableSort(bucket, RowOrder));
  }

  /** Each bucket is ordered by lower-cased translation; it is a permutation
      of the rows pushed under its key, and rows with equal lower-cased
      translations keep their push order. */
  lemma BucketsOrdered(words: seq<Entry>, m: int)
    requires 0 <= m < |Alphabetised(words)|
    ensures var g := Alphabetised(words)[m];
      var pushed := WithKey(Pushes(words), RowLetter, g.letter);
      && SortedBy(g.rows, RowOrder)
      && multiset(g.rows) == multiset(pushed)
      && SameKeyOrder(g.rows, pushed, RowOrder)
  {
    var g := Alphabetised(words)[m];
    var pushed := WithKey(Pushes(words), RowLetter, g.letter);
    StableSortCharacterised(pushed, g.rows, RowOrder);
    StableSortPermutes(pushed, RowOrder);
  }

  // ----- The order in which the page lists the keys -----

  /** The order in which the object `alphabetised` lists its own keys
      (Object.keys, for-in): its keys were created in SortedLetters order,
      and array-index keys (digits) come first. */
  function EnumeratedLetters(words: seq<Entry>): seq<string> {
    PropertyOrder(SortedLetters(words))
  }

  const One := Entry("un", Scalar("1st"), map[])
  const Be := Entry("être", Scalar("(to) be"), map[])

  /** A translation starting with a digit and one starting with "(" — which
      sorts before "0" — reach the page in the wrong order. */
  lemma DigitLetterListedFirst()
    ensures SortedLetters([One, Be]) == ["(", "1"]
    ensures EnumeratedLetters([One, Be]) == ["1", "("]
    ensures Lt("(", "1")
  {
    var r0, r1 := MakeRow(One, "1st"), MakeRow(Be, "(to) be");
    PushesPair(One, Be);
    ExpandScalar(One);
    ExpandScalar(Be);
    assert [r0] + [r1] == [r0, r1];
    assert RowLetter(r0) == "1" && RowLetter(r1) == "(";
    CreatedPair(r0, r1);
    DigitKeys();
  }

  /** How an object lists the keys "1" and "(", in either creation order. */
  lemma DigitKeys()
    ensures PropertyOrder(["1", "("]) == ["1", "("]
    ensures PropertyOrder(["(", "1"]) == ["1", "("]
    ensures StableSort(["1", "("], Itself) == ["(", "1"]
    ensures Lt("(", "1")
  {
    SingleCharacterIndex("1");
    SingleCharacterIndex("(");
    FilterPair(["1", "("], IsArrayIndex);
    FilterPair(["1", "("], IsNamedKey);
    FilterPair(["(", "1"], IsArrayIndex);
    FilterPair(["(", "1"], IsNamedKey);
    SortSingle("1", NumericOrder);
    SortPair("1", "(", Itself);
  }

  /** Without translations that start with a digit, the page lists the keys
      in the sorted order. */
  lemma EnumeratedLettersWithoutDigits(words: seq<Entry>)
    requires forall i, t :: 0 <= i < |words| && t in Translations(words[i]) && t != "" ==> !IsDigit(t[0])
    ensures EnumeratedLetters(words) == SortedLetters(words)
  {
    var rows, letters := Pushes(words), SortedLetters(words);
    LettersOfCreated(words);
    forall m | 0 <= m < |letters|
      ensures IsNamedKey(letters[m])
    {
      var k := letters[m];
      assert k in multiset(Created(rows));
      CreatedFromRows(rows, k);
      var p :| 0 <= p < |rows| && RowLetter(rows[p]) == k;
      PushesFromEntries(words, rows[p]);
      var i :| 0 <= i < |words| && ExpandedFrom(rows[p], words[i]);
      NamedRowLetter(rows[p]);
    }
    PropertyOrderOfNamedKeys(letters);
  }

  /** A translation that does not start with a digit gives a key that is not
      an array index. */
  lemma NamedRowLetter(r: Row)
    requires r.translation != "" ==> !IsDigit(r.translation[0])
    ensures IsNamedKey(RowLetter(r))
  {
    if r.translation != "" {
      SingleCharacterIndex(RowLetter(r));
    }
  }

  // ----- Worked examples -----

  /** No entries, no keys. */
  lemma NoEntriesNoGroups()
    ensures Alphabetised([]) == []
  {
  }

  const Hi := Entry("hi", Scalar("hello"), map[])
  const Bye := Entry("bye", Multiple(["goodbye", "farewell"]), map[])

  /** One scalar and one two-element translation spread over three keys,
      listed F, G, H. */
  lemma GroupingExample()
    ensures Alphabetised([Hi, Bye]) == [
      Group("F", [MakeRow(Bye, "farewell")]),
      Group("G", [MakeRow(Bye, "goodbye")]),
      Group("H", [MakeRow(Hi, "hello")])]
  {
    GroupingExampleRows();
    GroupingExampleLetters();
    GroupingExampleBuckets();
    GroupsOfTriple(Pushes([Hi, Bye]), "F", "G", "H");
  }

  lemma GroupingExampleRows()
    ensures Pushes([Hi, Bye]) == [MakeRow(Hi, "hello"), MakeRow(Bye, "goodbye"), MakeRow(Bye, "farewell")]
  {
    PushesPair(Hi, Bye);
    ExpandScalar(Hi);
    ExpandPair(Bye);
  }

  lemma GroupingExampleLetters()
    ensures SortedLetters([Hi, Bye]) == ["F", "G", "H"]
  {
    var h, g, f := MakeRow(Hi, "hello"), MakeRow(Bye, "goodbye"), MakeRow(Bye, "farewell");
    GroupingExampleRows();
    assert RowLetter(h) == "H" && RowLetter(g) == "G" && RowLetter(f) == "F";
    CreatedTriple(h, g, f);
    GroupingExampleKeys();
  }

  lemma GroupingExampleKeys()
    ensures PropertyOrder(["H", "G", "F"]) == ["H", "G", "F"]
    ensures StableSort(["H", "G", "F"], Itself) == ["F", "G", "H"]
  {
    SingleCharacterIndex("H");
    SingleCharacterIndex("G");
    SingleCharacterIndex("F");
    PropertyOrderOfNamedKeys(["H", "G", "F"]);
    assert Lt("G", "H") && Lt("F", "G");
    SortDescendingTriple("H", "G", "F", Itself);
  }

  lemma GroupingExampleBuckets()
    ensures var h, g, f := MakeRow(Hi, "hello"), MakeRow(Bye, "goodbye"), MakeRow(Bye, "farewell");
      && StableSort(WithKey([h, g, f], RowLetter, "F"), RowOrder) == [f]
      && StableSort(WithKey([h, g, f], RowLetter, "G"), RowOrder) == [g]
      && StableSort(WithKey([h, g, f], RowLetter, "H"), RowOrder) == [h]
  {
    var h, g, f := MakeRow(Hi, "hello"), MakeRow(Bye, "goodbye"), MakeRow(Bye, "farewell");
    assert RowLetter(h) == "H" && RowLetter(g) == "G" && RowLetter(f) == "F";
    SeparateBuckets(h, g, f);
  }

  const Upper := Entry("a", Scalar("Apple"), map[])
  const Lower := Entry("b", Scalar("apple"), map[])

  /** Translations equal up to case land in one bucket in push order. */
  lemma StableGroupingExample()
    ensures Alphabetised([Upper, Lower]) == [Group("A", [MakeRow(Upper, "Apple"), MakeRow(Lower, "apple")])]
  {
    StableGroupingExampleRows();
    StableGroupingExampleLetters();
    StableGroupingExampleBucket();
    GroupsOfSingle(Pushes([Upper, Lower]), "A");
  }

  lemma StableGroupingExampleRows()
    ensures Pushes([Upper, Lower]) == [MakeRow(Upper, "Apple"), MakeRow(Lower, "apple")]
  {
    PushesPair(Upper, Lower);
    ExpandScalar(Upper);
    ExpandScalar(Lower);
  }

  lemma StableGroupingExampleLetters()
    ensures SortedLetters([Upper, Lower]) == ["A"]
  {
    var ra, rb := MakeRow(Upper, "Apple"), MakeRow(Lower, "apple");
    StableGroupingExampleRows();
    assert RowLetter(ra) == "A" && RowLetter(rb) == "A";
    CreatedPair(ra, rb);
    SingleCharacterIndex("A");
    PropertyOrderOfNamedKeys(["A"]);
    SortSingle("A", Itself);
  }

  lemma StableGroupingExampleBucket()
    ensures var ra, rb := MakeRow(Upper, "Apple"), MakeRow(Lower, "apple");
      StableSort(WithKey([ra, rb], RowLetter, "A"), RowOrder) == [ra, rb]
  {
    var ra, rb := MakeRow(Upper, "Apple"), MakeRow(Lower, "apple");
    assert RowLetter(ra) == "A" && RowLetter(rb) == "A";
    WithKeyPair(ra, rb, "A");
    assert RowOrder(ra) == "apple" && RowOrder(rb) == "apple";
    LeReflexive("apple");
    SortPair(ra, rb, RowOrder);
  }

  // ----- Small sequences, for the examples -----

  /** Three rows with three different keys: each key's bucket is its row. */
  lemma SeparateBuckets(r0: Row, r1: Row, r2: Row)
    requires RowLetter(r0) != RowLetter(r1) && RowLetter(r0) != RowLetter(r2) && RowLetter(r1) != RowLetter(r2)
    ensures StableSort(WithKey([r0, r1, r2], RowLetter, RowLetter(r0)), RowOrder) == [r0]
    ensures StableSort(WithKey([r0, r1, r2], RowLetter, RowLetter(r1)), RowOrder) == [r1]
    ensures StableSort(WithKey([r0, r1, r2], RowLetter, RowLetter(r2)), RowOrder) == [r2]
  {
    WithKeyTriple(r0, r1, r2, RowLetter(r0));
    WithKeyTriple(r0, r1, r2, RowLetter(r1));
    WithKeyTriple(r0, r1, r2, RowLetter(r2));
    WithKeyPair(r1, r2, RowLetter(r0));
    WithKeyPair(r1, r2, RowLetter(r1));
    WithKeyPair(r1, r2, RowLetter(r2));
    SortSingle(r0, RowOrder);
    SortSingle(r1, RowOrder);
    SortSingle(r2, RowOrder);
  }

  lemma GroupsOfSingle(rows: seq<Row>, k: string)
    ensures GroupsOf(rows, [k]) == [Group(k, StableSort(WithKey(rows, RowLetter, k), RowOrder))]
  {
  }

  lemma GroupsOfTriple(rows: seq<Row>, k0: string, k1: string, k2: string)
    ensures GroupsOf(rows, [k0, k1, k2]) == [
      Group(k0, StableSort(WithKey(rows, RowLetter, k0), RowOrder)),
      Group(k1, StableSort(WithKey(rows, RowLetter, k1), RowOrder)),
      Group(k2, StableSort(WithKey(rows, RowLetter, k2), RowOrder))]
  {
  }

  lemma PushesPair(a: Entry, b: Entry)
    ensures Pushes([a, b]) == Expand(a) + Expand(b)
  {
    assert [a, b][..1] == [a];
    assert [a][..0] == [];
    assert Pushes([a]) == Expand(a);
  }

  lemma ExpandScalar(e: Entry)
    requires e.translation.Scalar?
    ensures Expand(e) == [MakeRow(e, e.translation.text)]
  {
  }

  lemma ExpandPair(e: Entry)
    requires e.translation.Multiple? && |e.translation.texts| == 2
    ensures Expand(e) == [MakeRow(e, e.translation.texts[0]), MakeRow(e, e.translation.texts[1])]
  {
    var ts := Translations(e);
    assert |Expand(e)| == 2;
    assert Expand(e)[0] == MakeRow(e, ts[0]) && Expand(e)[1] == MakeRow(e, ts[1]);
  }

  lemma CreatedPair(r0: Row, r1: Row)
    ensures Created([r0, r1]) ==
      if RowLetter(r1) == RowLetter(r0) then [RowLetter(r0)] else [RowLetter(r0), RowLetter(r1)]
  {
    assert [r0, r1][..1] == [r0];
    assert [r0][..0] == [];
    assert Created([r0]) == [RowLetter(r0)];
  }

  lemma CreatedTriple(r0: Row, r1: Row, r2: Row)
    requires RowLetter(r0) != RowLetter(r1) && RowLetter(r2) !in {RowLetter(r0), RowLetter(r1)}
    ensures Created([r0, r1, r2]) == [RowLetter(r0), RowLetter(r1), RowLetter(r2)]
  {
    assert [r0, r1, r2][..2] == [r0, r1];
    CreatedPair(r0, r1);
  }

  lemma WithKeyPair(r0: Row, r1: Row, k: string)
    ensures WithKey([r0, r1], RowLetter, k) ==
      (if RowLetter(r0) == k then [r0] else []) + (if RowLetter(r1) == k then [r1] else [])
  {
    assert [r0, r1][1..] == [r1];
    assert [r1][1..] == [];
    assert WithKey([r1], RowLetter, k) == if RowLetter(r1) == k then [r1] else [];
  }

  lemma WithKeyTriple(r0: Row, r1: Row, r2: Row, k: string)
    ensures WithKey([r0, r1, r2], RowLetter, k) ==
      (if RowLetter(r0) == k then [r0] else []) + WithKey([r1, r2], RowLetter, k)
  {
    assert [r0, r1, r2][1..] == [r1, r2];
  }

  lemma FilterPair<T>(s: seq<T>, p: T -> bool)
    requires |s| == 2
    ensures Filter(s, p) == (if p(s[0]) then [s[0]] else []) + (if p(s[1]) then [s[1]] else [])
  {
    assert s[1..][1..] == [];
    assert s[1..][0] == s[1];
    assert Filter(s[1..], p) == (if p(s[1]) then [s[1]] else []) + Filter(s[1..][1..], p);
  }

  lemma SortDescendingTriple<T>(x: T, y: T, z: T, key: T -> string)
    requires Lt(key(y), key(x)) && Lt(key(z), key(y))
    ensures StableSort([x, y, z], key) == [z, y, x]
  {
    assert [x, y, z][..2] == [x, y];
    SortPair(x, y, key);
    assert Insert(z, [y, x], key) == [z, y, x];
  }

  lemma SortSingle<T>(x: T, key: T -> string)
    ensures StableSort([x], key) == [x]
  {
    assert [x][..0] == [];
  }

  lemma SortPair<T>(x: T, y: T, key: T -> string)
    ensures StableSort([x, y], key) == if Lt(key(y), key(x)) then [y, x] else [x, y]
  {
    assert [x, y][..1] == [x];
    SortSingle(x, key);
    assert [x][1..] == [];
    assert Insert(y, [x], key) == if Lt(key(y), key(x)) then [y, x] else [x] + Insert(y, [], key);
  }
}
