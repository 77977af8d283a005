/**
 * The scan the journal summary performs several times: walk a sequence in
 * order and keep the first value a probe yields, `acc = acc || probe(x)`.
 */
module Search {
  import opened Wrappers

  /** The first `Some` that `probe` yields over `xs`, scanning left to right. */
  function FirstSome<T, U>(xs: seq<T>, probe: T -> Option<U>): (r: Option<U>)
    ensures r.None? <==> forall i :: 0 <= i < |xs| ==> probe(xs[i]).None?
    ensures r.Some? ==>
      exists i :: 0 <= i < |xs| && probe(xs[i]) == r &&
        forall j :: 0 <= j < i ==> probe(xs[j]).None?
  {
    if |xs| == 0 then None
    else
      var r := OrElse(FirstSome(xs[..|xs| - 1], probe), probe(xs[|xs| - 1]));
      assert forall i :: 0 <= i < |xs| - 1 ==> xs[..|xs| - 1][i] == xs[i];
      r
  }

  /** Appending one element: the earlier hit, if any, is kept. */
  lemma FirstSomeSnoc<T, U>(xs: seq<T>, x: T, probe: T -> Option<U>)
    ensures FirstSome(xs + [x], probe) == OrElse(FirstSome(xs, probe), probe(x))
  {
    assert (xs + [x])[..|xs|] == xs;
  }

  /** Once a prefix has produced a hit, no later element changes the result. */
  lemma {:induction false} FirstSomePrefix<T, U>(xs: seq<T>, k: nat, probe: T -> Option<U>)
    requires k <= |xs|
    requires FirstSome(xs[..k], probe).Some?
    ensures FirstSome(xs, probe) == FirstSome(xs[..k], probe)
    decreases |xs| - k
  {
    if k < |xs| {
      var init := xs[..|xs| - 1];
      assert init[..k] == xs[..k];
      FirstSomePrefix(init, k, probe);
    } else {
      assert xs[..k] == xs;
    }
  }
}
