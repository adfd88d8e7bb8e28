/** Facts about sets and sequences: pigeonhole, members, concatenation. */
module Counting {

  predicate Distinct<T(==)>(xs: seq<T>) {
    forall i, j :: 0 <= i < j < |xs| ==> xs[i] != xs[j]
  }

  ghost function Elements<T>(xs: seq<T>): set<T> {
    set x | x in xs
  }

  lemma {:induction false} DistinctCount<T>(xs: seq<T>)
    requires Distinct(xs)
    ensures |Elements(xs)| == |xs|
  {
    if xs != [] {
      var front, last := xs[..|xs| - 1], xs[|xs| - 1];
      DistinctCount(front);
      assert Elements(xs) == Elements(front) + {last};
      assert last !in front;
    }
  }

  lemma DistinctConcat<T>(a: seq<T>, b: seq<T>)
    requires Distinct(a) && Distinct(b) && forall x :: x in a ==> x !in b
    ensures Distinct(a + b) && Elements(a + b) == Elements(a) + Elements(b)
  {
    forall i, j | 0 <= i < j < |a + b| ensures (a + b)[i] != (a + b)[j] {
      if i < |a| <= j {
        assert (a + b)[i] in a && (a + b)[j] in b;
      }
    }
  }

  ghost function Below(n: nat): (s: set<int>)
    ensures |s| == n && forall x :: x in s <==> 0 <= x < n
  {
    if n == 0 then {} else Below(n - 1) + {n - 1}
  }

  lemma {:induction false} SubsetCount<T>(a: set<T>, b: set<T>)
    requires a <= b
    ensures |a| <= |b| && (|a| == |b| ==> a == b)
  {
    if a != {} {
      var x :| x in a;
      SubsetCount(a - {x}, b - {x});
    }
  }

  /** Distinct numbers below m: there are at most m of them. */
  lemma Pigeonhole(xs: seq<int>, m: nat)
    requires Distinct(xs) && forall x :: x in xs ==> 0 <= x < m
    ensures |xs| <= m
  {
    DistinctCount(xs);
    SubsetCount(Elements(xs), Below(m));
  }

  /** f maps the finite set a one-to-one into b. */
  lemma {:induction false} InjectionCount<S, T>(a: set<S>, b: set<T>, f: S -> T)
    requires forall x :: x in a ==> f(x) in b
    requires forall x, y :: x in a && y in a && f(x) == f(y) ==> x == y
    ensures |a| <= |b|
    ensures |a| == |b| ==> forall y :: y in b ==> exists x :: x in a && f(x) == y
  {
    if a != {} {
      var x :| x in a;
      InjectionCount(a - {x}, b - {f(x)}, f);
      if |a| == |b| {
        forall y | y in b ensures exists z :: z in a && f(z) == y {
          if y != f(x) {
            assert y in b - {f(x)};
            var z :| z in a - {x} && f(z) == y;
          }
        }
      }
    }
  }

  /** If f covers b from a, then b is no larger than a. */
  lemma {:induction false} SurjectionCount<S, T>(a: set<S>, b: set<T>, f: S -> T)
    requires forall y :: y in b ==> exists x :: x in a && f(x) == y
    ensures |b| <= |a|
  {
    if b != {} {
      var y :| y in b;
      var x :| x in a && f(x) == y;
      forall z | z in b - {y} ensures exists w :: w in a - {x} && f(w) == z {
        var w :| w in a && f(w) == z;
        assert w in a - {x};
      }
      SurjectionCount(a - {x}, b - {y}, f);
    }
  }

  lemma Regroup<T>(a: seq<T>, b: seq<T>, c: seq<T>)
    ensures a + b + c == a + (b + c)
  {
  }

  lemma MemberOf<T>(s: set<T>) returns (x: T)
    requires s != {}
    ensures x in s
  {
    x :| x in s;
  }

  /** Some element of a non-empty set: one row of an unordered query result. */
  method Pick<T(==)>(s: set<T>) returns (x: T)
    requires s != {}
    ensures x in s
  {
    x :| x in s;
  }
}
