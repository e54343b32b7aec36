/** Sequence functions shared by the models. */
module Util {

  datatype Option<+T> = None | Some(value: T)

  /** The elements of s that satisfy p, in their order. */
  function Filter<T>(s: seq<T>, p: T -> bool): seq<T> {
    if s == [] then []
    else Filter(s[..|s| - 1], p) + (if p(s[|s| - 1]) then [s[|s| - 1]] else [])
  }

  function Map<A, B>(s: seq<A>, f: A -> B): seq<B> {
    seq(|s|, i requires 0 <= i < |s| => f(s[i]))
  }

  /** s without the first occurrence of x. */
  function RemoveFirst<T(==)>(s: seq<T>, x: T): seq<T> {
    if s == [] then []
    else if s[0] == x then s[1..]
    else [s[0]] + RemoveFirst(s[1..], x)
  }

  lemma FilterSnoc<T>(s: seq<T>, x: T, p: T -> bool)
    ensures Filter(s + [x], p) == Filter(s, p) + (if p(x) then [x] else [])
  {
    assert (s + [x])[..|s|] == s;
  }

  lemma {:induction false} FilterConcat<T>(s: seq<T>, t: seq<T>, p: T -> bool)
    ensures Filter(s + t, p) == Filter(s, p) + Filter(t, p)
  {
    if t == [] {
      assert s + t == s;
    } else {
      var u := t[..|t| - 1];
      FilterConcat(s, u, p);
      FilterSnoc(s + u, t[|t| - 1], p);
      assert s + t == (s + u) + [t[|t| - 1]];
    }
  }

  lemma {:induction false} FilterMember<T>(s: seq<T>, p: T -> bool, x: T)
    ensures x in Filter(s, p) <==> x in s && p(x)
  {
    if s != [] {
      FilterMember(s[..|s| - 1], p, x);
      assert s == s[..|s| - 1] + [s[|s| - 1]];
    }
  }

  lemma {:induction false} FilterSize<T>(s: seq<T>, p: T -> bool)
    ensures |Filter(s, p)| <= |s|
  {
    if s != [] {
      FilterSize(s[..|s| - 1], p);
    }
  }

  lemma MapSnoc<A, B>(s: seq<A>, x: A, f: A -> B)
    ensures Map(s + [x], f) == Map(s, f) + [f(x)]
  {
  }

  /** Filtering commutes with an update that keeps the filter's verdict. */
  lemma {:induction false} FilterMap<A, B>(s: seq<A>, f: A -> B, p: A -> bool, q: B -> bool)
    requires forall x :: x in s ==> q(f(x)) == p(x)
    ensures Filter(Map(s, f), q) == Map(Filter(s, p), f)
  {
    if s != [] {
      var u, x := s[..|s| - 1], s[|s| - 1];
      assert s == u + [x];
      FilterMap(u, f, p, q);
      MapSnoc(u, x, f);
      FilterSnoc(Map(u, f), f(x), q);
      if p(x) {
        MapSnoc(Filter(u, p), x, f);
      }
    }
  }

  /** Filters combine, and agree when their predicates do. */
  lemma {:induction false} FilterFilter<T>(s: seq<T>, p: T -> bool, q: T -> bool, pq: T -> bool)
    requires forall x :: x in s ==> pq(x) == (p(x) && q(x))
    ensures Filter(Filter(s, p), q) == Filter(s, pq)
  {
    if s != [] {
      var u, x := s[..|s| - 1], s[|s| - 1];
      assert s == u + [x];
      FilterFilter(u, p, q, pq);
      FilterSnoc(u, x, p);
      if p(x) {
        FilterSnoc(Filter(u, p), x, q);
      } else {
        assert Filter(s, p) == Filter(u, p);
      }
    }
  }

  lemma {:induction false} RemoveFirstFilter<T>(s: seq<T>, x: T, p: T -> bool)
    ensures Filter(RemoveFirst(s, x), p) == if p(x) then RemoveFirst(Filter(s, p), x) else Filter(s, p)
  {
    if s != [] {
      var tail := s[1..];
      assert s == [s[0]] + tail;
      FilterConcat([s[0]], tail, p);
      if s[0] != x {
        RemoveFirstFilter(tail, x, p);
        FilterConcat([s[0]], RemoveFirst(tail, x), p);
        assert Filter([s[0]], p) == if p(s[0]) then [s[0]] else [];
        if p(s[0]) {
          var f := [s[0]] + Filter(tail, p);
          assert f[1..] == Filter(tail, p);
        } else {
          assert Filter(s, p) == Filter(tail, p);
          assert Filter([s[0]] + RemoveFirst(tail, x), p) == Filter(RemoveFirst(tail, x), p);
        }
      } else {
        assert Filter([x], p) == if p(x) then [x] else [];
        if p(x) {
          assert ([x] + Filter(tail, p))[1..] == Filter(tail, p);
        } else {
          assert Filter(s, p) == Filter(tail, p);
        }
      }
    }
  }

  lemma {:induction false} RemoveFirstMember<T>(s: seq<T>, x: T, y: T)
    ensures y in RemoveFirst(s, x) ==> y in s
    ensures y in s && y != x ==> y in RemoveFirst(s, x)
  {
    if s != [] {
      assert s == [s[0]] + s[1..];
      RemoveFirstMember(s[1..], x, y);
    }
  }

  lemma {:induction false} RemoveFirstSize<T>(s: seq<T>, x: T)
    ensures |RemoveFirst(s, x)| == if x in s then |s| - 1 else |s|
  {
    if s != [] {
      assert s == [s[0]] + s[1..];
      RemoveFirstSize(s[1..], x);
    }
  }
}
