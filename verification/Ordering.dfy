/**
 Lexicographic order on strings and the sorted sequences it gives: what `sort` does
 to vectors of names throughout the repository.
*/
module Ordering {
  predicate Le(a: string, b: string) {
    a == "" || (b != "" && (a[0] < b[0] || (a[0] == b[0] && Le(a[1..], b[1..]))))
  }

  lemma {:induction false} LeTotal(a: string, b: string)
    ensures Le(a, b) || Le(b, a)
  {
    if a != "" && b != "" {
      LeTotal(a[1..], b[1..]);
    }
  }

  lemma {:induction false} LeAntisymmetric(a: string, b: string)
    requires Le(a, b) && Le(b, a)
    ensures a == b
  {
    if a != "" {
      LeAntisymmetric(a[1..], b[1..]);
      assert a == [a[0]] + a[1..] && b == [b[0]] + b[1..];
    }
  }

  lemma {:induction false} LeTransitive(a: string, b: string, c: string)
    requires Le(a, b) && Le(b, c)
    ensures Le(a, c)
  {
    if a != "" && a[0] == b[0] == c[0] {
      LeTransitive(a[1..], b[1..], c[1..]);
    }
  }

  predicate Sorted(s: seq<string>) {
    forall i, j :: 0 <= i < j < |s| ==> Le(s[i], s[j])
  }

  predicate Distinct<T(==)>(s: seq<T>) {
    forall i, j :: 0 <= i < j < |s| ==> s[i] != s[j]
  }

  function Elems<T>(s: seq<T>): set<T> {
    set x | x in s
  }

  lemma ElemsConcat<T>(a: seq<T>, b: seq<T>)
    ensures Elems(a + b) == Elems(a) + Elems(b)
    ensures Distinct(a + b) <==> Distinct(a) && Distinct(b) && Elems(a) !! Elems(b)
  {
    if Distinct(a + b) {
      DistinctSlices(a, b);
    }
    if Distinct(a) && Distinct(b) && Elems(a) !! Elems(b) {
      forall i, j | 0 <= i < j < |a + b| ensures (a + b)[i] != (a + b)[j] {
        if i < |a| <= j {
          assert (a + b)[i] in Elems(a) && (a + b)[j] in Elems(b);
        }
      }
    }
  }

  lemma DistinctSlices<T>(a: seq<T>, b: seq<T>)
    requires Distinct(a + b)
    ensures Distinct(a) && Distinct(b)
    ensures forall i, j :: 0 <= i < |a| && 0 <= j < |b| ==> a[i] != b[j]
  {
    forall i, j | 0 <= i < |a| && 0 <= j < |b| ensures a[i] != b[j] {
      assert a[i] == (a + b)[i] && b[j] == (a + b)[|a| + j];
    }
    forall i, j | 0 <= i < j < |b| ensures b[i] != b[j] {
      assert b[i] == (a + b)[|a| + i] && b[j] == (a + b)[|a| + j];
    }
    forall i, j | 0 <= i < j < |a| ensures a[i] != a[j] {
      assert a[i] == (a + b)[i] && a[j] == (a + b)[j];
    }
  }

  lemma ElemsTail<T>(a: seq<T>)
    requires a != [] && Distinct(a)
    ensures a[0] in Elems(a)
    ensures Elems(a[1..]) == Elems(a) - {a[0]} && Distinct(a[1..])
  {
    assert a == [a[0]] + a[1..];
    ElemsConcat([a[0]], a[1..]);
    assert Elems([a[0]]) == {a[0]};
  }

  lemma ElemsSnoc<T>(a: seq<T>, x: T)
    ensures Elems(a + [x]) == Elems(a) + {x}
    ensures Distinct(a + [x]) <==> Distinct(a) && x !in Elems(a)
  {
    ElemsConcat(a, [x]);
    assert Elems([x]) == {x};
  }

  /** How often x occurs in s. */
  function Count<T(==)>(s: seq<T>, x: T): nat {
    multiset(s)[x]
  }

  lemma CountSnoc<T>(s: seq<T>, y: T, x: T)
    ensures Count(s + [y], x) == Count(s, x) + if x == y then 1 else 0
  {
  }

  lemma CountPositive<T>(s: seq<T>, x: T)
    ensures Count(s, x) > 0 <==> x in s
  {
  }

  lemma CountPrefix<T>(s: seq<T>, j: nat, x: T)
    requires j <= |s|
    ensures Count(s[..j], x) <= Count(s, x)
  {
    assert s == s[..j] + s[j..];
  }

  lemma CountSort(s: seq<string>, x: string)
    ensures Count(Sort(s), x) == Count(s, x)
  {
  }

  /** `sort`, for vectors of names. */
  function Sort(s: seq<string>): (r: seq<string>)
    ensures Sorted(r) && multiset(r) == multiset(s)
  {
    if s == [] then [] else
      assert s == [s[0]] + s[1..];
      Insert(s[0], Sort(s[1..]))
  }

  function Insert(x: string, s: seq<string>): (r: seq<string>)
    requires Sorted(s)
    ensures Sorted(r) && multiset(r) == multiset{x} + multiset(s)
  {
    if s == [] then [x]
    else
      assert s == [s[0]] + s[1..];
      LeTotal(x, s[0]);
      if Le(x, s[0]) then
        SortedCons(x, s);
        [x] + s
      else
        var tail := Insert(x, s[1..]);
        BelowInserted(x, s, tail);
        [s[0]] + tail
  }

  lemma SortedCons(x: string, s: seq<string>)
    requires s != [] && Sorted(s) && Le(x, s[0])
    ensures Sorted([x] + s)
  {
    LeReflexive(s[0]);
    forall y | y in s ensures Le(x, y) { LeTransitive(x, s[0], y); }
  }

  lemma BelowInserted(x: string, s: seq<string>, tail: seq<string>)
    requires s != [] && Sorted(s) && Le(s[0], x) && Sorted(tail) && multiset(tail) == multiset{x} + multiset(s[1..])
    ensures Sorted([s[0]] + tail)
  {
    forall y | y in tail ensures Le(s[0], y) {
      assert y in multiset(tail);
      assert y == x || y in s[1..];
    }
  }

  lemma LeReflexive(a: string)
    ensures Le(a, a)
  {
    LeTotal(a, a);
  }

  lemma HeadIsLeast(a: seq<string>, x: string)
    requires Sorted(a) && x in multiset(a)
    ensures a != [] && Le(a[0], x)
  {
    assert x in a;
    LeReflexive(a[0]);
  }

  lemma TailMultiset<T>(a: seq<T>)
    requires a != []
    ensures multiset(a[1..]) == multiset(a) - multiset{a[0]}
  {
    assert a == [a[0]] + a[1..];
  }

  /** A sorted sequence is determined by its elements with their multiplicities. */
  lemma {:induction false} SortedUnique(a: seq<string>, b: seq<string>)
    requires Sorted(a) && Sorted(b) && multiset(a) == multiset(b)
    ensures a == b
  {
    if a == [] {
      assert |multiset(b)| == |b|;
    } else {
      assert a[0] in multiset(a);
      HeadIsLeast(b, a[0]);
      assert b[0] in multiset(b);
      HeadIsLeast(a, b[0]);
      LeAntisymmetric(a[0], b[0]);
      TailMultiset(a);
      TailMultiset(b);
      SortedUnique(a[1..], b[1..]);
      assert a == [a[0]] + a[1..] && b == [b[0]] + b[1..];
    }
  }

  lemma {:induction false} DistinctMultiset<T>(a: seq<T>)
    requires Distinct(a)
    ensures multiset(a) == multiset(Elems(a))
  {
    if a != [] {
      DistinctMultiset(a[1..]);
      assert a == [a[0]] + a[1..];
      assert a[0] !in a[1..];
      assert Elems(a) == {a[0]} + Elems(a[1..]);
    }
  }

  lemma {:induction false} DistinctIffSize<T>(a: seq<T>)
    ensures |Elems(a)| <= |a|
    ensures Distinct(a) <==> |Elems(a)| == |a|
  {
    if a != [] {
      DistinctIffSize(a[1..]);
      assert a == [a[0]] + a[1..];
      assert Elems(a) == {a[0]} + Elems(a[1..]);
      assert forall x :: x in Elems(a[1..]) <==> x in a[1..];
      if a[0] in a[1..] {
        assert Elems(a) == Elems(a[1..]);
        var j :| 0 <= j < |a[1..]| && a[1..][j] == a[0];
        assert a[j + 1] == a[0];
      } else if Distinct(a[1..]) {
        forall i, j | 0 <= i < j < |a| ensures a[i] != a[j] {
          if i > 0 {
            assert a[i] == a[1..][i - 1] && a[j] == a[1..][j - 1];
          }
        }
      } else {
        var i, j :| 0 <= i < j < |a[1..]| && a[1..][i] == a[1..][j];
        assert a[i + 1] == a[j + 1];
      }
    }
  }

  /** Two sorted sequences without repeats that have the same elements are the same. */
  lemma SortedSetUnique(a: seq<string>, b: seq<string>)
    requires Sorted(a) && Sorted(b) && Distinct(a) && Distinct(b) && Elems(a) == Elems(b)
    ensures a == b
  {
    DistinctMultiset(a);
    DistinctMultiset(b);
    SortedUnique(a, b);
  }

  /** The elements of a set of names in order. */
  ghost function SortSet(s: set<string>): (r: seq<string>)
    ensures Sorted(r) && Distinct(r) && Elems(r) == s && |r| == |s|
  {
    var listed := Listing(s);
    var r := Sort(listed);
    assert Elems(r) == s by {
      assert forall x :: x in r <==> x in multiset(r);
      assert forall x :: x in listed <==> x in multiset(listed);
    }
    assert |r| == |s| by {
      assert |multiset(r)| == |multiset(listed)|;
      DistinctIffSize(listed);
    }
    DistinctIffSize(r);
    r
  }

  /** Some listing of a set, each element once. */
  ghost function Listing<T(!new)>(s: set<T>): (r: seq<T>)
    ensures Distinct(r) && Elems(r) == s
  {
    if s == {} then [] else
      var x :| x in s;
      var tail := Listing(s - {x});
      assert Elems([x] + tail) == {x} + Elems(tail);
      assert x !in tail by { assert forall y :: y in tail ==> y in Elems(tail); }
      [x] + tail
  }

  /** Sorting any listing of a set gives the elements in order, whatever the listing. */
  lemma SortOfListing(listed: seq<string>)
    requires Distinct(listed)
    ensures Sort(listed) == SortSet(Elems(listed))
  {
    var r := Sort(listed);
    assert Elems(r) == Elems(listed) by {
      assert forall x :: x in r <==> x in multiset(r);
      assert forall x :: x in listed <==> x in multiset(listed);
    }
    assert |multiset(r)| == |multiset(listed)|;
    DistinctIffSize(listed);
    DistinctIffSize(r);
    SortedSetUnique(r, SortSet(Elems(listed)));
  }

  /** The names of a set, listed in whatever order a map yields them and then sorted. */
  method SortedNames(names: set<string>) returns (r: seq<string>)
    ensures r == SortSet(names)
  {
    r := [];
    var todo := names;
    while todo != {}
      invariant todo <= names && Distinct(r)
      invariant Elems(r) == names - todo
    {
      var name :| name in todo;
      ElemsSnoc(r, name);
      r := r + [name];
      todo := todo - {name};
    }
    SortOfListing(r);
    r := Sort(r);
  }
}
