/** Sums over finite sets and multisets, which do not depend on the order of summation. */
module Sums {

  ghost function SumOver<T(!new)>(s: set<T>, f: T -> int): int {
    if s == {} then 0 else var x :| x in s; f(x) + SumOver(s - {x}, f)
  }

  lemma {:induction false} SumPull<T(!new)>(s: set<T>, f: T -> int, y: T)
    requires y in s
    ensures SumOver(s, f) == f(y) + SumOver(s - {y}, f)
    decreases s
  {
    var x :| x in s && SumOver(s, f) == f(x) + SumOver(s - {x}, f);
    if x == y {
    } else {
      SumPull(s - {x}, f, y);
      SumPull(s - {y}, f, x);
      assert s - {x} - {y} == s - {y} - {x};
    }
  }

  lemma SumAdd<T(!new)>(s: set<T>, f: T -> int, y: T)
    requires y !in s
    ensures SumOver(s + {y}, f) == f(y) + SumOver(s, f)
  {
    SumPull(s + {y}, f, y);
    assert s + {y} - {y} == s;
  }

  lemma {:induction false} SumSame<T(!new)>(s: set<T>, f: T -> int, g: T -> int)
    requires forall x :: x in s ==> f(x) == g(x)
    ensures SumOver(s, f) == SumOver(s, g)
    decreases s
  {
    if s == {} {
    } else {
      var x :| x in s;
      SumPull(s, f, x);
      SumPull(s, g, x);
      SumSame(s - {x}, f, g);
    }
  }

  /** The sum after the value at `k` has changed, or `k` has been added. */
  lemma SumChange<T(!new)>(s: set<T>, f: T -> int, g: T -> int, k: T)
    requires forall x :: x in s && x != k ==> f(x) == g(x)
    ensures SumOver(s + {k}, g) == SumOver(s, f) - (if k in s then f(k) else 0) + g(k)
  {
    var rest := s - {k};
    assert s + {k} == rest + {k};
    SumAdd(rest, g, k);
    SumSame(rest, f, g);
    if k in s {
      SumPull(s, f, k);
    } else {
      assert rest == s;
    }
  }

  lemma BagIsEmptyOrHasElement(b: multiset<int>)
    ensures b == multiset{} || exists x :: x in b
  {
    if forall x :: x !in b {
      assert b == multiset{};
    }
  }

  ghost function SumBag(b: multiset<int>): int {
    BagIsEmptyOrHasElement(b);
    if b == multiset{} then 0 else var x :| x in b; x + SumBag(b - multiset{x})
  }

  /** The element that the sum takes first. */
  lemma BagFirst(b: multiset<int>) returns (x: int)
    requires b != multiset{}
    ensures x in b && SumBag(b) == x + SumBag(b - multiset{x})
  {
    BagIsEmptyOrHasElement(b);
    x :| x in b && SumBag(b) == x + SumBag(b - multiset{x});
  }

  lemma {:induction false} BagPull(b: multiset<int>, y: int)
    requires y in b
    ensures SumBag(b) == y + SumBag(b - multiset{y})
    decreases |b|
  {
    var x := BagFirst(b);
    if x == y {
    } else {
      BagPull(b - multiset{x}, y);
      BagPull(b - multiset{y}, x);
      assert b - multiset{x} - multiset{y} == b - multiset{y} - multiset{x};
    }
  }

  function SumSeq(xs: seq<int>): int {
    if xs == [] then 0 else SumSeq(xs[..|xs| - 1]) + xs[|xs| - 1]
  }

  lemma LastOfBag(xs: seq<int>)
    requires xs != []
    ensures xs[|xs| - 1] in multiset(xs) && multiset(xs) - multiset{xs[|xs| - 1]} == multiset(xs[..|xs| - 1])
  {
    assert xs == xs[..|xs| - 1] + [xs[|xs| - 1]];
  }

  /** A sequence sums up to what its elements do, in any order. */
  lemma {:induction false} SeqIsBag(xs: seq<int>)
    ensures SumSeq(xs) == SumBag(multiset(xs))
  {
    if xs == [] {
    } else {
      var n := |xs| - 1;
      SeqIsBag(xs[..n]);
      LastOfBag(xs);
      BagPull(multiset(xs), xs[n]);
    }
  }

  lemma {:induction false} BagUnion(a: multiset<int>, b: multiset<int>)
    ensures SumBag(a + b) == SumBag(a) + SumBag(b)
    decreases |b|
  {
    BagIsEmptyOrHasElement(b);
    if b == multiset{} {
      assert a + b == a;
    } else {
      var x :| x in b;
      BagPull(b, x);
      BagPull(a + b, x);
      assert a + b - multiset{x} == a + (b - multiset{x});
      BagUnion(a, b - multiset{x});
    }
  }
}
