/** Sequences of pages, sequences without repetition, and elements picked in order. */
module Sequences {
  import opened Domain

  /** All items of a paged answer, in order. */
  function Flatten<T>(pages: seq<seq<T>>): seq<T> {
    if pages == [] then [] else Flatten(pages[..|pages| - 1]) + pages[|pages| - 1]
  }

  lemma FlattenNext<T>(pages: seq<seq<T>>, p: nat)
    requires p < |pages|
    ensures Flatten(pages[..p + 1]) == Flatten(pages[..p]) + pages[p]
  {
    assert pages[..p + 1][..p] == pages[..p];
  }

  lemma FlattenAll<T>(pages: seq<seq<T>>)
    ensures Flatten(pages[..|pages|]) == Flatten(pages)
  {
    assert pages[..|pages|] == pages;
  }

  lemma {:induction false} PageIsFlattened<T>(pages: seq<seq<T>>, p: nat)
    requires p < |pages|
    ensures forall x :: x in pages[p] ==> x in Flatten(pages)
  {
    var n := |pages| - 1;
    if p == n {
    } else {
      PageIsFlattened(pages[..n], p);
    }
  }

  ghost predicate Distinct<T>(s: seq<T>) {
    forall i, j :: 0 <= i < j < |s| ==> s[i] != s[j]
  }

  /**
   The picked elements are the images of those at these positions: the ones that have an image, each once, in
   order.
   */
  ghost predicate Picks<A(!new), B>(picked: seq<B>, xs: seq<A>, f: A -> Option<B>, from: seq<nat>) {
    && |from| == |picked|
    && (forall j, k :: 0 <= j < k < |from| ==> from[j] < from[k])
    && (forall j :: 0 <= j < |from| ==> from[j] < |xs| && f(xs[from[j]]) == Some(picked[j]))
    && (forall i :: 0 <= i < |xs| && f(xs[i]).Some? ==> i in from)
  }

  lemma PicksNext<A(!new), B>(picked: seq<B>, xs: seq<A>, f: A -> Option<B>, from: seq<nat>, n: nat)
    requires n < |xs| && Picks(picked, xs[..n], f, from)
    ensures f(xs[n]).None? ==> Picks(picked, xs[..n + 1], f, from)
    ensures f(xs[n]).Some? ==> Picks(picked + [f(xs[n]).value], xs[..n + 1], f, from + [n])
  {
    var longer := xs[..n + 1];
    assert forall i :: 0 <= i < n ==> longer[i] == xs[..n][i];
  }

  /** What was picked before the last element. */
  lemma PicksPrevious<A(!new), B>(picked: seq<B>, xs: seq<A>, f: A -> Option<B>, from: seq<nat>)
    requires xs != [] && Picks(picked, xs, f, from)
    ensures var n, m := |xs| - 1, |picked| - 1;
      if f(xs[n]).None? then Picks(picked, xs[..n], f, from)
      else m >= 0 && f(xs[n]) == Some(picked[m]) && Picks(picked[..m], xs[..n], f, from[..m])
  {
    var n, m := |xs| - 1, |picked| - 1;
    if f(xs[n]).None? {
      assert n !in from;
    } else {
      var j :| 0 <= j < |from| && from[j] == n;
      assert j == m;
    }
  }
}
