/** Array.prototype.find, as the two detail-page handlers use it. */
module Lookup {

  datatype Option<T> = None | Some(value: T)

  /** The first element of s that satisfies p; None stands for `undefined`. */
  function Find<T>(s: seq<T>, p: T -> bool): (r: Option<T>)
    ensures r.None? <==> forall i :: 0 <= i < |s| ==> !p(s[i])
    ensures r.Some? ==>
      exists i :: 0 <= i < |s| && s[i] == r.value && p(s[i]) && forall j :: 0 <= j < i ==> !p(s[j])
  {
    if s == [] then None
    else if p(s[0]) then Some(s[0])
    else Find(s[1..], p)
  }

  /** What a detail-page handler does: render the record, or redirect. */
  datatype Reply<T> = Render(record: T) | Redirect(location: string)
}
