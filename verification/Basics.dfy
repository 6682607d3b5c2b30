/** Vocabulary shared by every module: results, sequences without repetition, and counting. */
module Basics {
  datatype Option<+T> = None | Some(value: T)

  datatype Result<+T, +E> = Ok(value: T) | Err(error: E)

  ghost predicate NoDup<T>(s: seq<T>) {
    forall i, j :: 0 <= i < j < |s| ==> s[i] != s[j]
  }

  ghost function Elems<T>(s: seq<T>): set<T> {
    set x | x in s
  }

  lemma ElemsConcat<T>(a: seq<T>, b: seq<T>)
    ensures Elems(a + b) == Elems(a) + Elems(b)
  {
  }

  /** Pigeonhole: a sequence without repetition is no longer than any set that covers it. */
  lemma {:induction false} Pigeonhole<T>(s: seq<T>, cover: set<T>)
    requires NoDup(s) && Elems(s) <= cover
    ensures |s| <= |cover|
    ensures |s| == |cover| ==> Elems(s) == cover
  {
    if s != [] {
      var rest := s[1..];
      assert forall x :: x in rest ==> x in s;
      Pigeonhole(rest, cover - {s[0]});
      assert Elems(s) == Elems(rest) + {s[0]};
    }
  }

  lemma {:induction false} NoDupSize<T>(s: seq<T>)
    ensures |Elems(s)| <= |s|
    ensures |Elems(s)| == |s| <==> NoDup(s)
  {
    if s != [] {
      var rest, last := s[..|s| - 1], s[|s| - 1];
      assert s == rest + [last];
      NoDupSize(rest);
      assert Elems(s) == Elems(rest) + {last};
      if last in rest {
        assert Elems(s) == Elems(rest);
        var i :| 0 <= i < |rest| && rest[i] == last;
        assert s[i] == s[|s| - 1];
      } else if NoDup(rest) {
        assert NoDup(s);
      }
    }
  }

  /** The elements that a test accepts, in their order. */
  function Filter<T>(s: seq<T>, keep: T -> bool): (r: seq<T>) {
    if s == [] then []
    else if keep(s[|s| - 1]) then Filter(s[..|s| - 1], keep) + [s[|s| - 1]]
    else Filter(s[..|s| - 1], keep)
  }

  lemma {:induction false} FilterElems<T>(s: seq<T>, keep: T -> bool)
    ensures forall x :: x in Filter(s, keep) <==> x in s && keep(x)
    ensures NoDup(s) ==> NoDup(Filter(s, keep))
    ensures |Filter(s, keep)| <= |s|
  {
    if s != [] {
      assert s == s[..|s| - 1] + [s[|s| - 1]];
      FilterElems(s[..|s| - 1], keep);
    }
  }

  /** What f makes of each element, one after the other. */
  function Collect<A, B>(s: seq<A>, f: A -> seq<B>): seq<B> {
    if s == [] then [] else Collect(s[..|s| - 1], f) + f(s[|s| - 1])
  }

  lemma {:induction false} CollectConcat<A, B>(a: seq<A>, b: seq<A>, f: A -> seq<B>)
    ensures Collect(a + b, f) == Collect(a, f) + Collect(b, f)
  {
    if b == [] {
      assert a + b == a;
    } else {
      assert (a + b)[..|a + b| - 1] == a + b[..|b| - 1];
      CollectConcat(a, b[..|b| - 1], f);
    }
  }

  lemma CollectOne<A, B>(x: A, f: A -> seq<B>)
    ensures Collect([x], f) == f(x)
  {
    assert [x][..0] == [];
  }
}
