/** The removal both hooks write as `prev.filter(x => x.id !== id)`, once for the conversation
    list of src/hooks/useConversations.ts and once for the notification list of
    src/hooks/useNotifications.ts. It is stated here once, for any row type and its id. */
module IdFilter {

  /** The rows whose id is not `id`, in list order. */
  function Without<T>(xs: seq<T>, idOf: T -> string, id: string): (r: seq<T>)
    ensures |r| <= |xs|
    ensures forall k :: 0 <= k < |r| ==> idOf(r[k]) != id
    decreases |xs|
  {
    if xs == [] then []
    else if idOf(xs[0]) == id then Without(xs[1..], idOf, id)
    else [xs[0]] + Without(xs[1..], idOf, id)
  }

  /** Removing keeps exactly the rows with another id: every one of them is kept (in list
      order, as the next lemma shows), and nothing new appears. */
  lemma {:induction false} WithoutKeepsOthers<T>(xs: seq<T>, idOf: T -> string, id: string, x: T)
    ensures x in Without(xs, idOf, id) <==> x in xs && idOf(x) != id
    decreases |xs|
  {
    if xs != [] {
      WithoutKeepsOthers(xs[1..], idOf, id, x);
      assert xs == [xs[0]] + xs[1..];
    }
  }

  /** Removing keeps the order: the result is the others taken in list order, as the
      back-to-front definition below builds them. */
  lemma {:induction false} WithoutKeepsOrder<T>(xs: seq<T>, idOf: T -> string, id: string)
    ensures Without(xs, idOf, id) == OthersInOrder(xs, idOf, id)
    decreases |xs|
  {
    if xs != [] {
      var init, last := xs[..|xs| - 1], xs[|xs| - 1];
      assert xs == init + [last];
      WithoutKeepsOrder(init, idOf, id);
      WithoutAppend(init, [last], idOf, id);
      assert [last][1..] == [];
    }
  }

  /** Removing from a concatenation removes from both parts. */
  lemma {:induction false} WithoutAppend<T>(xs: seq<T>, ys: seq<T>, idOf: T -> string, id: string)
    ensures Without(xs + ys, idOf, id) == Without(xs, idOf, id) + Without(ys, idOf, id)
    decreases |xs|
  {
    if xs == [] {
      assert xs + ys == ys;
    } else {
      assert (xs + ys)[1..] == xs[1..] + ys;
      WithoutAppend(xs[1..], ys, idOf, id);
    }
  }

  /** The others, read from the list back to front: an independent definition of the filter. */
  function OthersInOrder<T>(xs: seq<T>, idOf: T -> string, id: string): seq<T>
    decreases |xs|
  {
    if xs == [] then []
    else if idOf(xs[|xs| - 1]) == id then OthersInOrder(xs[..|xs| - 1], idOf, id)
    else OthersInOrder(xs[..|xs| - 1], idOf, id) + [xs[|xs| - 1]]
  }
}
