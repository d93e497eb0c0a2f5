/** Leftmost search over a sequence: the selection rule for slots is stated with it. */
module Seqs {
  import opened Options

  /** The lowest index at or after `from` whose element satisfies `p`. */
  function FirstIndexFrom<T>(s: seq<T>, p: T -> bool, from: nat): (r: Option<nat>)
    decreases |s| - from
    ensures r.Some? ==> from <= r.value < |s| && p(s[r.value])
    ensures r.Some? ==> forall j | from <= j < r.value :: !p(s[j])
    ensures r.None? ==> forall j | from <= j < |s| :: !p(s[j])
  {
    if from >= |s| then None
    else if p(s[from]) then Some(from)
    else FirstIndexFrom(s, p, from + 1)
  }

  /** The lowest index of `s` whose element satisfies `p`, or None when there is none. */
  function FirstIndex<T>(s: seq<T>, p: T -> bool): (r: Option<nat>)
    ensures r.Some? ==> r.value < |s| && p(s[r.value]) && forall j | 0 <= j < r.value :: !p(s[j])
    ensures r.None? <==> forall j | 0 <= j < |s| :: !p(s[j])
  {
    FirstIndexFrom(s, p, 0)
  }
}
