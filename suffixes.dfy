/** The suffix pages: the `/suffixes` handler, which sorts the records of
    suffixes.json in place by lower-cased suffix, and the `/suffixes/:suffix`
    handler, which looks one record up. */
module Suffixes {
  import opened Text
  import opened Sorting
  import opened Lookup

  /** A record of suffixes.json. `details` stands for its other fields,
      which the handlers pass to the template unread. */
  datatype Suffix = Suffix(suffix: string, details: map<string, string>)

  /** What the comparator compares. */
  function SuffixOrder(s: Suffix): string {
    ToLower(s.suffix)
  }

  /** The `/suffixes` handler's sort (server.js:99): the records are reordered
      in place by their lower-cased suffixes, equal keys keeping their order. */
  method SortSuffixes(suffixes: array<Suffix>)
    modifies suffixes
    ensures suffixes[..] == StableSort(old(suffixes[..]), SuffixOrder)
    ensures SortedBy(suffixes[..], SuffixOrder)
    ensures multiset(suffixes[..]) == multiset(old(suffixes[..]))
    ensures SameKeyOrder(suffixes[..], old(suffixes[..]), SuffixOrder)
  {
    ghost var before := suffixes[..];
    SortInPlace(suffixes, SuffixOrder);
    StableSortCharacterised(before, suffixes[..], SuffixOrder);
    StableSortPermutes(before, SuffixOrder);
  }

  /** The `/suffixes/:suffix` handler (server.js:116-122): the first record
      whose suffix is the requested one is rendered; without one the reply is
      a redirect to the not-found page. */
  function SuffixPage(suffixes: seq<Suffix>, requested: string): (reply: Reply<Suffix>)
    ensures reply.Redirect? <==> forall i :: 0 <= i < |suffixes| ==> suffixes[i].suffix != requested
    ensures reply.Redirect? ==> reply.location == "/404"
    ensures reply.Render? ==>
      exists i :: 0 <= i < |suffixes| && suffixes[i] == reply.record && suffixes[i].suffix == requested
        && forall j :: 0 <= j < i ==> suffixes[j].suffix != requested
  {
    match Find(suffixes, (s: Suffix) => s.suffix == requested)
    case Some(s) => Render(s)
    case None => Redirect("/404")
  }
}
