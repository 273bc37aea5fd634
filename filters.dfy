/**
 * Filtering comprehensions, `[x for x in xs if pass(x)]`, and where their
 * elements come from. The title picker filters its line triples this way and
 * the key-sentence picker its sentences.
 */
module Filters {
  /** `[x for x in xs if pass(x)]` */
  function Keep<T>(xs: seq<T>, pass: T -> bool): seq<T> {
    if xs == [] then []
    else
      var x := xs[|xs| - 1];
      Keep(xs[..|xs| - 1], pass) + (if pass(x) then [x] else [])
  }

  lemma KeepAppend<T>(xs: seq<T>, x: T, pass: T -> bool)
    ensures Keep(xs + [x], pass) == Keep(xs, pass) + (if pass(x) then [x] else [])
  {
    assert (xs + [x])[..|xs|] == xs;
  }

  /** The positions of `xs` the kept elements come from. */
  ghost function Origins<T>(xs: seq<T>, pass: T -> bool): seq<nat> {
    if xs == [] then []
    else
      var n := |xs| - 1;
      Origins(xs[..n], pass) + (if pass(xs[n]) then [n] else [])
  }

  /** Each kept element is the element of `xs` at its origin, and it passes. */
  lemma {:induction false} OriginsMatch<T>(xs: seq<T>, pass: T -> bool)
    ensures |Origins(xs, pass)| == |Keep(xs, pass)|
    ensures forall i :: 0 <= i < |Origins(xs, pass)| ==>
      Origins(xs, pass)[i] < |xs| && Keep(xs, pass)[i] == xs[Origins(xs, pass)[i]] && pass(xs[Origins(xs, pass)[i]])
  {
    if xs != [] {
      var n := |xs| - 1;
      var init := xs[..n];
      OriginsMatch(init, pass);
      var o := Origins(init, pass);
      assert forall i :: 0 <= i < |o| ==> init[o[i]] == xs[o[i]];
    }
  }

  /** The origins increase: the kept elements keep the order of `xs`. */
  lemma {:induction false} OriginsIncreasing<T>(xs: seq<T>, pass: T -> bool)
    ensures forall i :: 0 <= i < |Origins(xs, pass)| ==> Origins(xs, pass)[i] < |xs|
    ensures forall i, j :: 0 <= i < j < |Origins(xs, pass)| ==> Origins(xs, pass)[i] < Origins(xs, pass)[j]
  {
    if xs != [] {
      OriginsIncreasing(xs[..|xs| - 1], pass);
    }
  }

  /** Every element that passes is kept. */
  lemma {:induction false} OriginsCover<T>(xs: seq<T>, pass: T -> bool)
    ensures forall k :: 0 <= k < |xs| && pass(xs[k]) ==> k in Origins(xs, pass)
  {
    if xs != [] {
      var n := |xs| - 1;
      var init := xs[..n];
      OriginsCover(init, pass);
      assert forall k :: 0 <= k < n ==> init[k] == xs[k];
    }
  }

  /** Nothing is kept exactly when nothing passes. */
  lemma KeepEmpty<T>(xs: seq<T>, pass: T -> bool)
    ensures Keep(xs, pass) == [] <==> forall j :: 0 <= j < |xs| ==> !pass(xs[j])
  {
    OriginsMatch(xs, pass);
    OriginsCover(xs, pass);
    if Keep(xs, pass) != [] {
      assert pass(xs[Origins(xs, pass)[0]]);
    }
  }
}
