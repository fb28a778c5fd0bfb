/** Stable sorting by a total preorder, as `OrderBy` followed by `ThenBy` does it. */
module StableSort {
  ghost predicate TotalPreorder<T(!new)>(le: (T, T) -> bool) {
    && (forall x, y :: le(x, y) || le(y, x))
    && (forall x, y, z :: le(x, y) && le(y, z) ==> le(x, z))
  }

  ghost predicate Sorted<T>(s: seq<T>, le: (T, T) -> bool) {
    forall i, j :: 0 <= i < j < |s| ==> le(s[i], s[j])
  }

  function Filter<T>(s: seq<T>, p: T -> bool): seq<T>
    decreases |s|
  {
    if s == [] then []
    else
      var n := |s| - 1;
      Filter(s[..n], p) + if p(s[n]) then [s[n]] else []
  }

  /** After everything that may come before or beside it. */
  function Insert<T>(s: seq<T>, x: T, le: (T, T) -> bool): seq<T> {
    if s == [] || !le(s[0], x) then [x] + s else [s[0]] + Insert(s[1..], x, le)
  }

  function Sort<T>(s: seq<T>, le: (T, T) -> bool): seq<T>
    decreases |s|
  {
    if s == [] then [] else Insert(Sort(s[..|s| - 1], le), s[|s| - 1], le)
  }

  lemma {:induction false} InsertIs<T>(s: seq<T>, x: T, le: (T, T) -> bool)
    ensures multiset(Insert(s, x, le)) == multiset(s) + multiset{x}
  {
    if s != [] && le(s[0], x) {
      InsertIs(s[1..], x, le);
      assert s == [s[0]] + s[1..];
    }
  }

  lemma {:induction false} InsertSorts<T(!new)>(s: seq<T>, x: T, le: (T, T) -> bool)
    requires TotalPreorder(le) && Sorted(s, le)
    ensures Sorted(Insert(s, x, le), le)
  {
    if s != [] {
      if le(s[0], x) {
        InsertSorts(s[1..], x, le);
        InsertIs(s[1..], x, le);
        var rest := Insert(s[1..], x, le);
        forall y | y in rest
          ensures le(s[0], y)
        {
          assert y in multiset(rest);
          assert y == x || y in s[1..];
        }
      } else {
        assert le(x, s[0]);
        assert forall j :: 0 <= j < |s| ==> le(x, s[j]) by {
          assert le(s[0], s[0]);
        }
      }
    }
  }

  lemma {:induction false} SortIs<T(!new)>(s: seq<T>, le: (T, T) -> bool)
    requires TotalPreorder(le)
    ensures Sorted(Sort(s, le), le) && multiset(Sort(s, le)) == multiset(s)
    decreases |s|
  {
    if s != [] {
      var n := |s| - 1;
      SortIs(s[..n], le);
      InsertSorts(Sort(s[..n], le), s[n], le);
      InsertIs(Sort(s[..n], le), s[n], le);
      assert s == s[..n] + [s[n]];
    }
  }

  lemma {:induction false} FilterConcat<T>(a: seq<T>, b: seq<T>, p: T -> bool)
    ensures Filter(a + b, p) == Filter(a, p) + Filter(b, p)
    decreases |b|
  {
    if b == [] {
      assert a + b == a;
    } else {
      var n := |b| - 1;
      FilterConcat(a, b[..n], p);
      assert (a + b)[..|a + b| - 1] == a + b[..n];
    }
  }

  lemma {:induction false} FilterNone<T>(s: seq<T>, p: T -> bool)
    requires forall x :: x in s ==> !p(x)
    ensures Filter(s, p) == []
    decreases |s|
  {
    if s != [] {
      FilterNone(s[..|s| - 1], p);
    }
  }

  lemma {:induction false} FilterSame<T>(s: seq<T>, p: T -> bool, q: T -> bool)
    requires forall x :: x in s ==> p(x) == q(x)
    ensures Filter(s, p) == Filter(s, q)
    decreases |s|
  {
    if s != [] {
      assert s[|s| - 1] in s;
      FilterSame(s[..|s| - 1], p, q);
    }
  }

  lemma {:induction false} FilterTwice<T>(s: seq<T>, p: T -> bool, q: T -> bool, both: T -> bool)
    requires forall x :: x in s ==> both(x) == (p(x) && q(x))
    ensures Filter(Filter(s, p), q) == Filter(s, both)
    decreases |s|
  {
    if s != [] {
      var init, last := s[..|s| - 1], s[|s| - 1];
      assert last in s;
      FilterTwice(init, p, q, both);
      FilterConcat(Filter(init, p), [last], q);
      assert [last][..0] == [];
      assert Filter(init, p) + [] == Filter(init, p);
    }
  }

  /** Elements that may stand in either order. */
  function Beside<T>(x: T, le: (T, T) -> bool): T -> bool {
    y => le(x, y) && le(y, x)
  }

  lemma FilterFront<T>(x: T, s: seq<T>, p: T -> bool)
    ensures Filter([x] + s, p) == (if p(x) then [x] else []) + Filter(s, p)
  {
    FilterConcat([x], s, p);
    assert [x][..0] == [];
  }

  /** What cannot stand first before a sorted sequence stands beside nothing in it. */
  lemma NoneBeside<T(!new)>(s: seq<T>, x: T, le: (T, T) -> bool, z: T)
    requires TotalPreorder(le) && Sorted(s, le) && s != [] && !le(s[0], x) && Beside(z, le)(x)
    ensures Filter(s, Beside(z, le)) == []
  {
    forall y | y in s
      ensures !Beside(z, le)(y)
    {
      var k :| 0 <= k < |s| && s[k] == y;
      assert k == 0 || le(s[0], s[k]);
    }
    FilterNone(s, Beside(z, le));
  }

  lemma {:induction false} InsertStable<T(!new)>(s: seq<T>, x: T, le: (T, T) -> bool, z: T)
    requires TotalPreorder(le) && Sorted(s, le)
    ensures Filter(Insert(s, x, le), Beside(z, le)) == Filter(s, Beside(z, le)) + Filter([x], Beside(z, le))
  {
    var p := Beside(z, le);
    FilterFront(x, [], p);
    assert [x] + [] == [x];
    if s == [] || !le(s[0], x) {
      FilterFront(x, s, p);
      if s != [] && p(x) {
        NoneBeside(s, x, le, z);
      }
    } else {
      InsertStable(s[1..], x, le, z);
      FilterFront(s[0], Insert(s[1..], x, le), p);
      FilterFront(s[0], s[1..], p);
      assert s == [s[0]] + s[1..];
    }
  }

  /** Elements that may stand in either order stay in the order they came in. */
  lemma {:induction false} SortStable<T(!new)>(s: seq<T>, le: (T, T) -> bool, z: T)
    requires TotalPreorder(le)
    ensures Filter(Sort(s, le), Beside(z, le)) == Filter(s, Beside(z, le))
    decreases |s|
  {
    if s != [] {
      var n := |s| - 1;
      SortIs(s[..n], le);
      SortStable(s[..n], le, z);
      InsertStable(Sort(s[..n], le), s[n], le, z);
      assert s == s[..n] + [s[n]];
      FilterConcat(s[..n], [s[n]], Beside(z, le));
    }
  }

  /** No two different elements of a sequence may stand in either order. */
  ghost predicate NoTies<T>(s: seq<T>, le: (T, T) -> bool) {
    forall x, y :: x in s && y in s && le(x, y) && le(y, x) ==> x == y
  }

  lemma SameMembers<T>(a: seq<T>, b: seq<T>)
    requires multiset(a) == multiset(b)
    ensures forall x :: x in a <==> x in b
  {
    assert forall x :: x in a <==> x in multiset(a);
    assert forall x :: x in b <==> x in multiset(b);
  }

  /** The first of a sorted sequence may stand before every member. */
  lemma FirstIsLeast<T(!new)>(s: seq<T>, le: (T, T) -> bool, x: T)
    requires TotalPreorder(le) && Sorted(s, le) && x in s
    ensures le(s[0], x)
  {
    var i :| 0 <= i < |s| && s[i] == x;
    assert i == 0 ==> le(x, x);
  }

  lemma SameFirst<T(!new)>(a: seq<T>, b: seq<T>, le: (T, T) -> bool)
    requires TotalPreorder(le) && Sorted(a, le) && Sorted(b, le) && multiset(a) == multiset(b) && NoTies(a, le)
    requires a != [] && b != []
    ensures a[0] == b[0]
  {
    SameMembers(a, b);
    assert a[0] in b && b[0] in a;
    FirstIsLeast(a, le, b[0]);
    FirstIsLeast(b, le, a[0]);
  }

  lemma SameRest<T>(a: seq<T>, b: seq<T>)
    requires a != [] && b != [] && a[0] == b[0] && multiset(a) == multiset(b)
    ensures multiset(a[1..]) == multiset(b[1..])
  {
    assert a == [a[0]] + a[1..] && b == [b[0]] + b[1..];
    assert multiset(a[1..]) == multiset(a) - multiset{a[0]};
    assert multiset(b[1..]) == multiset(b) - multiset{b[0]};
  }

  lemma {:induction false} SortedUnique<T(!new)>(a: seq<T>, b: seq<T>, le: (T, T) -> bool)
    requires TotalPreorder(le) && Sorted(a, le) && Sorted(b, le) && multiset(a) == multiset(b) && NoTies(a, le)
    ensures a == b
  {
    assert |multiset(a)| == |a| && |multiset(b)| == |b|;
    if a != [] {
      SameFirst(a, b, le);
      SameRest(a, b);
      SortedUnique(a[1..], b[1..], le);
      assert a == [a[0]] + a[1..] && b == [b[0]] + b[1..];
    }
  }

  lemma SortAnyOrder<T(!new)>(a: seq<T>, b: seq<T>, le: (T, T) -> bool)
    requires TotalPreorder(le) && multiset(a) == multiset(b) && NoTies(a, le)
    ensures Sort(a, le) == Sort(b, le)
  {
    SortIs(a, le);
    SortIs(b, le);
    SameMembers(a, Sort(a, le));
    SortedUnique(Sort(a, le), Sort(b, le), le);
  }

  /** A sequence that starts with a given one of its elements. */
  lemma ToFront<T>(s: seq<T>, x: T) returns (p: seq<T>)
    requires x in s
    ensures p != [] && p[0] == x && multiset(p) == multiset(s)
  {
    var i :| 0 <= i < |s| && s[i] == x;
    p := [x] + s[..i] + s[i + 1..];
    assert s == s[..i] + [x] + s[i + 1..];
  }

  lemma FilterFirst<T>(s: seq<T>, p: T -> bool)
    requires s != [] && p(s[0])
    ensures Filter(s, p) != [] && Filter(s, p)[0] == s[0]
  {
    FilterConcat([s[0]], s[1..], p);
    assert s == [s[0]] + s[1..];
    assert Filter([s[0]], p) == [s[0]] by {
      assert [s[0]][..0] == [];
    }
  }

  /** Sorting gives the same result from every order of the elements exactly when there are no ties. */
  lemma OrderIndependentIff<T(!new)>(s: seq<T>, le: (T, T) -> bool)
    requires TotalPreorder(le)
    ensures (forall p :: multiset(p) == multiset(s) ==> Sort(p, le) == Sort(s, le)) <==> NoTies(s, le)
  {
    if NoTies(s, le) {
      forall p | multiset(p) == multiset(s)
        ensures Sort(p, le) == Sort(s, le)
      {
        SortAnyOrder(s, p, le);
      }
    } else {
      var x, y :| x in s && y in s && le(x, y) && le(y, x) && x != y;
      assert le(x, x);
      var a := ToFront(s, x);
      var b := ToFront(s, y);
      FilterFirst(a, Beside(x, le));
      FilterFirst(b, Beside(x, le));
      SortStable(a, le, x);
      SortStable(b, le, x);
      assert Sort(a, le) != Sort(b, le);
    }
  }
}
