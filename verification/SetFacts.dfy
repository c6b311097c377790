/** Facts about finite sets used by several modules. */
module SetFacts {

  lemma {:induction false} SubsetSize<T>(a: set<T>, b: set<T>)
    requires a <= b
    ensures |a| <= |b|
  {
    if a != {} {
      var x :| x in a;
      SubsetSize(a - {x}, b - {x});
    }
  }

  /** The numbers below n. */
  function Below(n: nat): (s: set<int>)
    ensures |s| == n
    ensures forall i :: i in s <==> 0 <= i < n
  {
    if n == 0 then {} else Below(n - 1) + {n - 1}
  }

  /** The elements of a sequence. */
  function Elements(xs: seq<int>): (s: set<int>)
    ensures |s| <= |xs|
    ensures forall x :: x in s <==> x in xs
  {
    if xs == [] then {}
    else
      assert xs == [xs[0]] + xs[1..];
      Elements(xs[1..]) + {xs[0]}
  }

  /** Fewer than n numbers miss one of the numbers below n. */
  lemma {:induction false} SomeMissing(xs: seq<int>, n: nat)
    requires |xs| < n
    ensures exists i :: 0 <= i < n && i !in xs
  {
    if Below(n) <= Elements(xs) {
      SubsetSize(Below(n), Elements(xs));
    }
    var i: int :| i in Below(n) && i !in Elements(xs);
    assert 0 <= i < n && i !in xs;
  }
}
