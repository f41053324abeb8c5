/**
 * The first-match search the page scripts run over their lists: `findIndex`
 * on a catalog group, `find` on the extras and the first card with a key.
 */
module Search {
  import opened Wrappers

  /** The index of the first element whose key is `key`, or `None` when no element has it. */
  function FindFirst<T>(xs: seq<T>, keyOf: T -> string, key: string): (r: Option<nat>)
    ensures r.Some? ==> r.value < |xs| && keyOf(xs[r.value]) == key
                        && forall j :: 0 <= j < r.value ==> keyOf(xs[j]) != key
    ensures r.None? ==> forall j :: 0 <= j < |xs| ==> keyOf(xs[j]) != key
  {
    if xs == [] then None
    else if keyOf(xs[0]) == key then Some(0)
    else match FindFirst(xs[1..], keyOf, key)
      case None => None
      case Some(i) => Some(i + 1)
  }

  /** Elements added after a match do not change which element is found. */
  lemma {:induction false} FindFirstAppend<T>(xs: seq<T>, more: seq<T>, keyOf: T -> string, key: string)
    requires FindFirst(xs, keyOf, key).Some?
    ensures FindFirst(xs + more, keyOf, key) == FindFirst(xs, keyOf, key)
  {
    if keyOf(xs[0]) != key {
      assert (xs + more)[1..] == xs[1..] + more;
      FindFirstAppend(xs[1..], more, keyOf, key);
    }
  }
}
