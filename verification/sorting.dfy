/** `sorted(...)` over a set of strings: the elements in ascending Python
    string order, each exactly once. */
module Sorting {
  import opened Strings

  /** Strictly ascending, hence free of duplicates. */
  predicate StrictlySorted(s: seq<string>) {
    forall i, j | 0 <= i < j < |s| :: Lt(s[i], s[j])
  }

  /** `m` is the smallest element of `s`. */
  predicate IsLeast(m: string, s: set<string>) {
    m in s && forall y | y in s :: Le(m, y)
  }

  lemma {:induction false} LeastExists(s: set<string>)
    requires s != {}
    ensures exists m :: IsLeast(m, s)
    decreases |s|
  {
    var x :| x in s;
    if s == {x} {
      LeReflexive(x);
      assert IsLeast(x, s);
    } else {
      var rest := s - {x};
      LeastExists(rest);
      var m :| IsLeast(m, rest);
      LeTotal(x, m);
      if Le(x, m) {
        forall y | y in s
          ensures Le(x, y)
        {
          if y == x {
            LeReflexive(x);
          } else {
            LeTransitive(x, m, y);
          }
        }
        assert IsLeast(x, s);
      } else {
        assert IsLeast(m, s);
      }
    }
  }

  lemma LeastUnique(s: set<string>)
    ensures forall a, b | IsLeast(a, s) && IsLeast(b, s) :: a == b
  {
    forall a, b | IsLeast(a, s) && IsLeast(b, s)
      ensures a == b
    {
      LeAntisymmetric(a, b);
    }
  }

  /** The elements of `s` in ascending order. */
  function SortedElements(s: set<string>): (r: seq<string>)
    ensures |r| == |s|
    ensures forall x :: x in r <==> x in s
    ensures StrictlySorted(r)
    decreases |s|
  {
    if s == {} then []
    else
      LeastExists(s);
      LeastUnique(s);
      var m :| IsLeast(m, s);
      [m] + SortedElements(s - {m})
  }

  /** A single element sorts to itself. */
  lemma SortedSingleton(x: string)
    ensures SortedElements({x}) == [x]
  {
    var r := SortedElements({x});
    assert |r| == 1 && r[0] in {x};
  }

  /** Two strictly ascending sequences with the same elements are equal:
      `sorted` has only one possible result. */
  lemma {:induction false} SortedUnique(q: seq<string>, r: seq<string>)
    requires StrictlySorted(q) && StrictlySorted(r)
    requires forall x :: x in q <==> x in r
    ensures q == r
    decreases |q|
  {
    if |q| == 0 {
      HeadIn(r);
    } else {
      assert q[0] in r;
      assert r[0] in q;
      var i :| 0 <= i < |r| && r[i] == q[0];
      var j :| 0 <= j < |q| && q[j] == r[0];
      if i > 0 {
        assert Lt(r[0], r[i]);
        if j > 0 {
          assert Lt(q[0], q[j]);
          LeAntisymmetric(q[0], r[0]);
        }
      }
      assert q[0] == r[0];
      forall x
        ensures x in q[1..] <==> x in r[1..]
      {
        if x in q[1..] {
          var k :| 1 <= k < |q| && q[k] == x;
          assert Lt(q[0], q[k]);
          assert x in r && x != r[0];
          var l :| 0 <= l < |r| && r[l] == x;
          assert r[1..][l - 1] == x;
        }
        if x in r[1..] {
          var k :| 1 <= k < |r| && r[k] == x;
          assert Lt(r[0], r[k]);
          assert x in q && x != q[0];
          var l :| 0 <= l < |q| && q[l] == x;
          assert q[1..][l - 1] == x;
        }
      }
      SortedTail(q);
      SortedTail(r);
      SortedUnique(q[1..], r[1..]);
      assert q == [q[0]] + q[1..] && r == [r[0]] + r[1..];
    }
  }

  /** A non-empty sequence holds its first element. */
  lemma HeadIn(r: seq<string>)
    ensures |r| > 0 ==> r[0] in r
  {
  }

  lemma SortedTail(q: seq<string>)
    requires |q| > 0 && StrictlySorted(q)
    ensures StrictlySorted(q[1..])
  {
    forall i, j | 0 <= i < j < |q[1..]|
      ensures Lt(q[1..][i], q[1..][j])
    {
      assert q[1..][i] == q[i + 1] && q[1..][j] == q[j + 1];
    }
  }
}
