/** Ordered traversal of finite sets of naturals: the ascending listing that an
    ORDER BY produces and the sum that a SUM aggregate computes. */
module FiniteSets {

  predicate StrictlyAscending(s: seq<nat>) {
    forall i, j :: 0 <= i < j < |s| ==> s[i] < s[j]
  }

  /** A set holding x has a least element: either x is least, or descend to
      a smaller member. */
  lemma {:induction false} HasMinimum(s: set<nat>, x: nat)
    requires x in s
    ensures exists m :: m in s && forall y :: y in s ==> m <= y
    decreases x
  {
    if !forall y :: y in s ==> x <= y {
      var y :| y in s && y < x;
      HasMinimum(s, y);
    }
  }

  /** The least element of a non-empty set. */
  function Min(s: set<nat>): (m: nat)
    requires s != {}
    ensures m in s && forall x :: x in s ==> m <= x
  {
    var x :| x in s;
    HasMinimum(s, x);
    var m :| m in s && forall x :: x in s ==> m <= x;
    m
  }

  /** The elements of a set in ascending order. */
  function Ascending(s: set<nat>): (r: seq<nat>)
    ensures |r| == |s|
    ensures forall x :: x in s <==> x in r
    ensures StrictlyAscending(r)
    decreases |s|
  {
    if s == {} then []
    else
      var m := Min(s);
      var rest := Ascending(s - {m});
      assert forall x :: x in rest ==> m < x;
      [m] + rest
  }

  /** The sum of f over a set, taken in ascending order. */
  function SumBy(s: set<nat>, f: nat -> int): int
    decreases |s|
  {
    if s == {} then 0 else f(Min(s)) + SumBy(s - {Min(s)}, f)
  }

  /** The sum does not depend on the traversal order: any element can be
      taken out first. */
  lemma {:induction false} SumByRemove(s: set<nat>, f: nat -> int, x: nat)
    requires x in s
    ensures SumBy(s, f) == f(x) + SumBy(s - {x}, f)
    decreases |s|
  {
    var m := Min(s);
    if x != m {
      SumByRemove(s - {m}, f, x);
      SumByRemove(s - {x}, f, m);
      assert s - {m} - {x} == s - {x} - {m};
    }
  }

  /** A subset has at most as many elements. */
  lemma {:induction false} SubsetCardinality<T>(a: set<T>, b: set<T>)
    requires a <= b
    ensures |a| <= |b|
    decreases |a|
  {
    if a != {} {
      var x :| x in a;
      SubsetCardinality(a - {x}, b - {x});
    }
  }
}
