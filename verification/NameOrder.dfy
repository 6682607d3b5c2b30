/** The order that Rust's string comparison and `sort()` use: lexicographic by scalar value. */
module NameOrder {
  import opened Basics

  predicate Le(a: string, b: string) {
    a == [] || (b != [] && (a[0] < b[0] || (a[0] == b[0] && Le(a[1..], b[1..]))))
  }

  lemma {:induction false} LeTotal(a: string, b: string)
    ensures Le(a, b) || Le(b, a)
  {
    if a != [] && b != [] && a[0] == b[0] {
      LeTotal(a[1..], b[1..]);
    }
  }

  lemma {:induction false} LeAntisymmetric(a: string, b: string)
    requires Le(a, b) && Le(b, a)
    ensures a == b
  {
    if a != [] && b != [] {
      LeAntisymmetric(a[1..], b[1..]);
      assert a == [a[0]] + a[1..] && b == [b[0]] + b[1..];
    }
  }

  lemma {:induction false} LeTransitive(a: string, b: string, c: string)
    requires Le(a, b) && Le(b, c)
    ensures Le(a, c)
  {
    if a != [] && a[0] == b[0] == c[0] {
      LeTransitive(a[1..], b[1..], c[1..]);
    }
  }

  /** a and b first differ at k, or a ends there, and a is the smaller. */
  ghost predicate SmallerAt(a: string, b: string, k: nat) {
    k <= |a| && k <= |b| && a[..k] == b[..k] && (k == |a| || (k < |b| && a[k] < b[k]))
  }

  /** Lexicographic order: a is a prefix of b, or smaller where they first differ. */
  lemma {:induction false} LeIsLexicographic(a: string, b: string)
    ensures Le(a, b) <==> exists k: nat :: SmallerAt(a, b, k)
  {
    if a == [] {
      assert SmallerAt(a, b, 0);
    } else if b != [] {
      LeIsLexicographic(a[1..], b[1..]);
      if a[0] < b[0] {
        assert SmallerAt(a, b, 0);
      } else if a[0] == b[0] && Le(a[1..], b[1..]) {
        var k: nat :| SmallerAt(a[1..], b[1..], k);
        assert a[..k + 1] == [a[0]] + a[1..][..k] && b[..k + 1] == [b[0]] + b[1..][..k];
        assert SmallerAt(a, b, k + 1);
      }
      if k: nat :| SmallerAt(a, b, k) {
        if k > 0 {
          assert a[0] == a[..k][0] == b[..k][0] == b[0];
          assert a[1..][..k - 1] == a[..k][1..] && b[1..][..k - 1] == b[..k][1..];
          assert SmallerAt(a[1..], b[1..], k - 1);
        }
      }
    }
  }

  ghost predicate Sorted(s: seq<string>) {
    forall i, j :: 0 <= i < j < |s| ==> Le(s[i], s[j])
  }

  function Insert(x: string, s: seq<string>): (r: seq<string>)
    ensures multiset(r) == multiset(s) + multiset{x}
  {
    if s == [] then [x] else
    assert s == [s[0]] + s[1..];
    if Le(x, s[0]) then [x] + s else [s[0]] + Insert(x, s[1..])
  }

  lemma SortedCons(x: string, s: seq<string>)
    requires Sorted(s) && forall y :: y in s ==> Le(x, y)
    ensures Sorted([x] + s)
  {
  }

  lemma {:induction false} InsertSorts(x: string, s: seq<string>)
    requires Sorted(s)
    ensures Sorted(Insert(x, s))
  {
    if s != [] {
      LeTotal(x, s[0]);
      if Le(x, s[0]) {
        forall y | y in s ensures Le(x, y) {
          LeTotal(s[0], s[0]);
          LeTransitive(x, s[0], y);
        }
        SortedCons(x, s);
      } else {
        var rest := Insert(x, s[1..]);
        InsertSorts(x, s[1..]);
        forall y | y in rest ensures Le(s[0], y) {
          assert y in multiset(rest);
          assert y == x || y in s[1..];
        }
        SortedCons(s[0], rest);
      }
    }
  }

  /** `Vec::sort`: a sorted permutation of its input. */
  function Sort(s: seq<string>): (r: seq<string>)
    ensures Sorted(r) && multiset(r) == multiset(s)
  {
    if s == [] then [] else
    assert s == s[..|s| - 1] + [s[|s| - 1]];
    InsertSorts(s[|s| - 1], Sort(s[..|s| - 1]));
    Insert(s[|s| - 1], Sort(s[..|s| - 1]))
  }

  lemma {:induction false} LeastExists(names: set<string>)
    requires names != {}
    ensures exists m :: m in names && forall y :: y in names ==> Le(m, y)
  {
    var x :| x in names;
    var rest := names - {x};
    if rest == {} {
      LeTotal(x, x);
      assert names == {x};
    } else {
      LeastExists(rest);
      var m :| m in rest && forall y :: y in rest ==> Le(m, y);
      LeTotal(m, x);
      if Le(m, x) {
        assert forall y :: y in names ==> y == x || y in rest;
      } else {
        LeTotal(x, x);
        forall y | y in names ensures Le(x, y) {
          if y != x { LeTransitive(x, m, y); }
        }
      }
    }
  }

  /** The one increasing listing of a set of names. */
  ghost function Listing(names: set<string>): (r: seq<string>)
    ensures Sorted(r) && NoDup(r) && Elems(r) == names
  {
    if names == {} then [] else
    LeastExists(names);
    var m :| m in names && forall y :: y in names ==> Le(m, y);
    var rest := Listing(names - {m});
    assert forall y :: y in rest <==> y in Elems(rest);
    assert Elems([m] + rest) == {m} + Elems(rest);
    [m] + rest
  }

  lemma {:induction false} SortedUnique(a: seq<string>, b: seq<string>)
    requires Sorted(a) && Sorted(b) && NoDup(a) && NoDup(b) && Elems(a) == Elems(b)
    ensures a == b
  {
    NoDupSize(a);
    NoDupSize(b);
    if a != [] {
      assert a[0] in Elems(b);
      assert b[0] in Elems(a);
      var i :| 0 <= i < |b| && b[i] == a[0];
      var j :| 0 <= j < |a| && a[j] == b[0];
      LeTotal(a[0], a[0]);
      LeAntisymmetric(a[0], b[0]);
      assert Elems(a[1..]) == Elems(a) - {a[0]};
      assert Elems(b[1..]) == Elems(b) - {b[0]};
      SortedUnique(a[1..], b[1..]);
      assert a == [a[0]] + a[1..] && b == [b[0]] + b[1..];
    }
  }

  /** Sorting any repetition-free listing of a set gives its one increasing listing. */
  lemma SortIsListing(s: seq<string>)
    requires NoDup(s)
    ensures Sort(s) == Listing(Elems(s))
  {
    var r := Sort(s);
    assert forall x :: x in r <==> x in multiset(r);
    assert forall x :: x in s <==> x in multiset(s);
    assert Elems(r) == Elems(s);
    NoDupSize(s);
    assert |r| == |multiset(r)| == |s|;
    NoDupSize(r);
    SortedUnique(r, Listing(Elems(s)));
  }
}
