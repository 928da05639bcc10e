/** Python's sorted() on a set of strings. */
module Sorting {
  /** Lexicographic order by code point. */
  predicate Le(a: string, b: string) {
    a == "" || (b != "" && (a[0] < b[0] || (a[0] == b[0] && Le(a[1..], b[1..]))))
  }

  lemma {:induction false} LeTotal(a: string, b: string)
    ensures Le(a, b) || Le(b, a)
    ensures Le(a, b) && Le(b, a) ==> a == b
  {
    if a != "" && b != "" && a[0] == b[0] {
      LeTotal(a[1..], b[1..]);
      assert a == [a[0]] + a[1..] && b == [b[0]] + b[1..];
    }
  }

  lemma {:induction false} LeTransitive(a: string, b: string, c: string)
    requires Le(a, b) && Le(b, c)
    ensures Le(a, c)
  {
    if a != "" && a[0] == b[0] && b[0] == c[0] { LeTransitive(a[1..], b[1..], c[1..]); }
  }

  /** A beginning comes first, and otherwise the first character that differs decides, by
      its code point. */
  lemma {:induction false} LeDecides(p: string, s: string, t: string)
    ensures Le(p, p + s)
    ensures s != "" && t != "" && s[0] != t[0] ==> (Le(p + s, p + t) <==> s[0] as int < t[0] as int)
    decreases |p|
  {
    if p == "" {
      assert p + s == s && p + t == t;
    } else {
      assert (p + s)[1..] == p[1..] + s && (p + t)[1..] == p[1..] + t;
      LeDecides(p[1..], s, t);
    }
  }

  predicate IsLeast(x: string, s: set<string>) {
    x in s && forall y | y in s :: Le(x, y)
  }

  lemma {:induction false} LeastExists(s: set<string>)
    requires s != {}
    ensures exists x :: IsLeast(x, s)
  {
    var x :| x in s;
    var rest := s - {x};
    LeTotal(x, x);
    if rest == {} {
      assert s == {x};
      assert IsLeast(x, s);
    } else {
      LeastExists(rest);
      var y :| IsLeast(y, rest);
      LeTotal(x, y);
      var least := if Le(x, y) then x else y;
      forall z | z in s
        ensures Le(least, z)
      {
        if z != x && Le(x, y) { LeTransitive(x, y, z); }
      }
      assert IsLeast(least, s);
    }
  }

  function Least(s: set<string>): (x: string)
    requires s != {}
    ensures IsLeast(x, s)
  {
    LeastExists(s);
    assert forall x, y | IsLeast(x, s) && IsLeast(y, s) :: x == y by {
      forall x, y | IsLeast(x, s) && IsLeast(y, s)
        ensures x == y
      {
        LeTotal(x, y);
      }
    }
    var x :| IsLeast(x, s);
    x
  }

  function Sorted(s: set<string>): seq<string>
    decreases |s|
  {
    if s == {} then [] else [Least(s)] + Sorted(s - {Least(s)})
  }

  /** Nothing is lost and nothing is invented. */
  lemma {:induction false} SortedElems(s: set<string>)
    ensures forall x :: x in Sorted(s) <==> x in s
    ensures |Sorted(s)| == |s|
    decreases |s|
  {
    if s != {} { SortedElems(s - {Least(s)}); }
  }

  /** ... and the elements stand in strictly ascending order. */
  lemma {:induction false} SortedOrder(s: set<string>, i: nat, j: nat)
    requires i < j < |Sorted(s)|
    ensures Le(Sorted(s)[i], Sorted(s)[j]) && Sorted(s)[i] != Sorted(s)[j]
    decreases |s|
  {
    var rest := s - {Least(s)};
    assert Sorted(s)[j] == Sorted(rest)[j - 1];
    if i == 0 {
      SortedElems(rest);
      assert Sorted(rest)[j - 1] in rest;
    } else {
      SortedOrder(rest, i - 1, j - 1);
    }
  }

  /** The elements of xs that are in s, in the order of xs. */
  function Filter(xs: seq<string>, s: set<string>): seq<string> {
    if xs == [] then []
    else
      var last := xs[|xs| - 1];
      Filter(xs[..|xs| - 1], s) + if last in s then [last] else []
  }

  lemma {:induction false} FilterCons(x: string, xs: seq<string>, s: set<string>)
    ensures Filter([x] + xs, s) == (if x in s then [x] else []) + Filter(xs, s)
  {
    if xs == [] {
      assert [x] + xs == [x];
    } else {
      var init := xs[..|xs| - 1];
      assert ([x] + xs)[..|xs|] == [x] + init;
      FilterCons(x, init, s);
    }
  }

  /** Sorting and then keeping a subset is sorting the subset. */
  lemma {:induction false} FilterSorted(all: set<string>, s: set<string>)
    requires s <= all
    ensures Filter(Sorted(all), s) == Sorted(s)
    decreases |all|
  {
    if all != {} {
      var x := Least(all);
      FilterCons(x, Sorted(all - {x}), s);
      if x in s {
        LeTotal(x, Least(s));
        assert Least(s) == x;
        FilterKeeps(Sorted(all - {x}), s, x, all - {x});
        FilterSorted(all - {x}, s - {x});
      } else {
        FilterSorted(all - {x}, s);
      }
    }
  }

  lemma FilterKeeps(xs: seq<string>, s: set<string>, x: string, rest: set<string>)
    requires xs == Sorted(rest) && x !in rest
    ensures Filter(xs, s) == Filter(xs, s - {x})
  {
    SortedElems(rest);
    FilterSame(xs, s, x);
  }

  lemma {:induction false} FilterSame(xs: seq<string>, s: set<string>, x: string)
    requires x !in xs
    ensures Filter(xs, s) == Filter(xs, s - {x})
  {
    if xs != [] { FilterSame(xs[..|xs| - 1], s, x); }
  }

  lemma FilterSnoc(xs: seq<string>, n: nat, s: set<string>)
    requires n < |xs|
    ensures Filter(xs[..n + 1], s) == Filter(xs[..n], s) + if xs[n] in s then [xs[n]] else []
  {
    assert xs[..n + 1][..n] == xs[..n];
  }
}
