/** Linear search over a sequence, the way `Array.prototype.findIndex` and `find` behave. */
module Search {
  import opened Wrappers

  /** The index of the first element satisfying `p`, or -1 when none does. */
  function FirstMatch<T>(s: seq<T>, p: T -> bool): (r: int)
    ensures -1 <= r < |s|
    ensures r == -1 <==> forall k :: 0 <= k < |s| ==> !p(s[k])
    ensures 0 <= r ==> p(s[r]) && forall k :: 0 <= k < r ==> !p(s[k])
  {
    if s == [] then -1
    else if p(s[0]) then 0
    else
      var r := FirstMatch(s[1..], p);
      if r == -1 then -1 else r + 1
  }

  /** The first element satisfying `p`, if any. */
  function Find<T>(s: seq<T>, p: T -> bool): (r: Option<T>)
    ensures r.None? <==> forall k :: 0 <= k < |s| ==> !p(s[k])
    ensures r.Some? ==> exists k :: 0 <= k < |s| && s[k] == r.value && p(s[k]) &&
                                    forall j :: 0 <= j < k ==> !p(s[j])
  {
    var i := FirstMatch(s, p);
    if i == -1 then None else Some(s[i])
  }
}
