/** A stable sort by comparison, and why every stable sort gives the same result. */
module StableSort {
  import opened Basics

  datatype Ordering = Less | Equal | Greater {
    function Reverse(): Ordering {
      match this
      case Less => Greater
      case Equal => Equal
      case Greater => Less
    }
  }

  type Comparison<!T> = (T, T) -> Ordering

  ghost predicate Leq<T>(cmp: Comparison<T>, a: T, b: T) {
    cmp(a, b) != Greater
  }

  /** The comparison is a total preorder on the elements of a domain. */
  ghost predicate Preorder<T(!new)>(cmp: Comparison<T>, dom: set<T>) {
    && (forall a, b :: a in dom && b in dom ==> cmp(b, a) == cmp(a, b).Reverse())
    && (forall a, b, c {:trigger Leq(cmp, a, b), Leq(cmp, b, c)} ::
          a in dom && b in dom && c in dom && Leq(cmp, a, b) && Leq(cmp, b, c) ==> Leq(cmp, a, c))
  }

  ghost predicate Ordered<T>(cmp: Comparison<T>, s: seq<T>) {
    forall i, j :: 0 <= i < j < |s| ==> Leq(cmp, s[i], s[j])
  }

  /** Elements that tie with x, in their order. */
  ghost function Ties<T>(cmp: Comparison<T>, s: seq<T>, x: T): seq<T> {
    if s == [] then [] else
    Ties(cmp, s[..|s| - 1], x) + if cmp(s[|s| - 1], x) == Equal then [s[|s| - 1]] else []
  }

  ghost predicate SameTies<T(!new)>(cmp: Comparison<T>, a: seq<T>, b: seq<T>, dom: set<T>) {
    forall x :: x in dom ==> Ties(cmp, a, x) == Ties(cmp, b, x)
  }

  /** `sort_by`: x, the last of the input, goes after everything that is not greater. */
  function Insert<T>(cmp: Comparison<T>, s: seq<T>, x: T): (r: seq<T>)
    ensures multiset(r) == multiset(s) + multiset{x}
  {
    if s == [] then [x] else
    assert s == s[..|s| - 1] + [s[|s| - 1]];
    if cmp(s[|s| - 1], x) != Greater then s + [x]
    else Insert(cmp, s[..|s| - 1], x) + [s[|s| - 1]]
  }

  function SortBy<T>(cmp: Comparison<T>, s: seq<T>): (r: seq<T>)
    ensures multiset(r) == multiset(s)
  {
    if s == [] then [] else
    assert s == s[..|s| - 1] + [s[|s| - 1]];
    Insert(cmp, SortBy(cmp, s[..|s| - 1]), s[|s| - 1])
  }

  lemma SameElements<T>(a: seq<T>, b: seq<T>)
    requires multiset(a) == multiset(b)
    ensures Elems(a) == Elems(b) && |a| == |b|
  {
    assert forall x :: x in a <==> x in multiset(a);
    assert forall x :: x in b <==> x in multiset(b);
    assert |a| == |multiset(a)| == |multiset(b)| == |b|;
  }

  lemma OrderedLast<T(!new)>(cmp: Comparison<T>, s: seq<T>, x: T)
    requires Ordered(cmp, s) && forall y :: y in s ==> Leq(cmp, y, x)
    ensures Ordered(cmp, s + [x])
  {
  }

  lemma {:induction false} InsertOrders<T(!new)>(cmp: Comparison<T>, s: seq<T>, x: T, dom: set<T>)
    requires Preorder(cmp, dom) && x in dom && Elems(s) <= dom && Ordered(cmp, s)
    ensures Ordered(cmp, Insert(cmp, s, x))
  {
    if s != [] {
      var front, last := s[..|s| - 1], s[|s| - 1];
      assert last in Elems(s) && Elems(front) <= Elems(s);
      if cmp(last, x) != Greater {
        forall y | y in s ensures Leq(cmp, y, x) {
          assert y in Elems(s) && Leq(cmp, last, last);
          assert Leq(cmp, y, last) && Leq(cmp, last, x);
        }
        OrderedLast(cmp, s, x);
      } else {
        InsertOrders(cmp, front, x, dom);
        var r := Insert(cmp, front, x);
        forall y | y in r ensures Leq(cmp, y, last) {
          assert y in multiset(r);
          assert cmp(x, last) == Less;
        }
        OrderedLast(cmp, r, last);
      }
    }
  }

  lemma {:induction false} SortOrders<T(!new)>(cmp: Comparison<T>, s: seq<T>, dom: set<T>)
    requires Preorder(cmp, dom) && Elems(s) <= dom
    ensures Ordered(cmp, SortBy(cmp, s))
  {
    if s != [] {
      var front := s[..|s| - 1];
      assert s[|s| - 1] in Elems(s) && Elems(front) <= Elems(s);
      SortOrders(cmp, front, dom);
      SameElements(front, SortBy(cmp, front));
      InsertOrders(cmp, SortBy(cmp, front), s[|s| - 1], dom);
    }
  }

  lemma {:induction false} InsertTies<T(!new)>(cmp: Comparison<T>, s: seq<T>, x: T, z: T, dom: set<T>)
    requires Preorder(cmp, dom) && x in dom && z in dom && Elems(s) <= dom
    ensures Ties(cmp, Insert(cmp, s, x), z) == Ties(cmp, s + [x], z)
  {
    assert (s + [x])[..|s|] == s;
    if s != [] {
      var front, last := s[..|s| - 1], s[|s| - 1];
      assert last in Elems(s) && Elems(front) <= Elems(s);
      if cmp(last, x) == Greater {
        InsertTies(cmp, front, x, z, dom);
        var r := Insert(cmp, front, x);
        assert (r + [last])[..|r|] == r;
        assert (front + [x])[..|front|] == front;
        if cmp(last, z) == Equal && cmp(x, z) == Equal {
          assert Leq(cmp, last, z) && Leq(cmp, z, x);
          assert false;
        }
      }
    } else {
      assert [x] == s + [x];
    }
  }

  /** Elements that tie keep their order. */
  lemma {:induction false} SortKeepsTies<T(!new)>(cmp: Comparison<T>, s: seq<T>, dom: set<T>)
    requires Preorder(cmp, dom) && Elems(s) <= dom
    ensures SameTies(cmp, SortBy(cmp, s), s, dom)
  {
    if s != [] {
      var front, last := s[..|s| - 1], s[|s| - 1];
      assert s == front + [last];
      assert last in Elems(s) && Elems(front) <= Elems(s);
      SortKeepsTies(cmp, front, dom);
      SameElements(front, SortBy(cmp, front));
      forall z | z in dom ensures Ties(cmp, SortBy(cmp, s), z) == Ties(cmp, s, z) {
        InsertTies(cmp, SortBy(cmp, front), last, z, dom);
        assert (SortBy(cmp, front) + [last])[..|front|] == SortBy(cmp, front);
      }
    }
  }

  lemma {:induction false} TiesMembers<T(!new)>(cmp: Comparison<T>, s: seq<T>, x: T)
    ensures forall y :: y in Ties(cmp, s, x) <==> y in s && cmp(y, x) == Equal
  {
    if s != [] {
      assert s == s[..|s| - 1] + [s[|s| - 1]];
      TiesMembers(cmp, s[..|s| - 1], x);
    }
  }

  /** The greatest element of one ordered sequence comes last in the other. */
  lemma LastAgree<T(!new)>(cmp: Comparison<T>, a: seq<T>, b: seq<T>, dom: set<T>)
    requires Preorder(cmp, dom) && Elems(a) <= dom && Elems(b) <= dom
    requires Ordered(cmp, a) && Ordered(cmp, b) && SameTies(cmp, a, b, dom) && a != []
    ensures b != [] && a[|a| - 1] == b[|b| - 1]
  {
    var x := a[|a| - 1];
    assert x in Elems(a) && x in dom;
    TiesMembers(cmp, a, x);
    TiesMembers(cmp, b, x);
    assert cmp(x, x) == Equal;
    assert x in Ties(cmp, b, x) && x in b;
    var y := b[|b| - 1];
    assert y in Elems(b) && y in dom && cmp(y, y) == Equal;
    TiesMembers(cmp, a, y);
    TiesMembers(cmp, b, y);
    assert y in Ties(cmp, a, y) && y in a;
    assert Leq(cmp, y, x) && Leq(cmp, x, y);
    assert cmp(y, x) == Equal;
    var t, u := Ties(cmp, a, x), Ties(cmp, b, x);
    assert t[|t| - 1] == x && u[|u| - 1] == y;
  }

  /** Ordered, with ties in the order of the input: that determines the result. */
  lemma {:induction false} StableSortUnique<T(!new)>(cmp: Comparison<T>, a: seq<T>, b: seq<T>, dom: set<T>)
    requires Preorder(cmp, dom) && Elems(a) <= dom && Elems(b) <= dom
    requires Ordered(cmp, a) && Ordered(cmp, b) && SameTies(cmp, a, b, dom)
    ensures a == b
  {
    if a == [] {
      if b != [] {
        LastAgree(cmp, b, a, dom);
      }
    } else {
      LastAgree(cmp, a, b, dom);
      var a', b', x := a[..|a| - 1], b[..|b| - 1], a[|a| - 1];
      forall z | z in dom ensures Ties(cmp, a', z) == Ties(cmp, b', z) {
        assert Ties(cmp, a, z) == Ties(cmp, b, z);
        var ta, tb := Ties(cmp, a', z), Ties(cmp, b', z);
        if cmp(x, z) == Equal {
          assert ta + [x] == tb + [x] && |ta| == |tb|;
          assert ta == (ta + [x])[..|ta|] && tb == (tb + [x])[..|tb|];
        } else {
          assert Ties(cmp, a, z) == ta && Ties(cmp, b, z) == tb;
        }
      }
      assert Elems(a') <= Elems(a) && Elems(b') <= Elems(b);
      StableSortUnique(cmp, a', b', dom);
      assert a == a' + [x] && b == b' + [x];
    }
  }
}
