/** Variables of the same size are dropped in the order of the environment. */
module ChildEnvOrder {
  import opened Util
  import opened Text
  import opened ChildEnv

  /** Variables of this many units, name and value together. */
  function OfSize(units: nat): Var -> bool {
    (v: Var) => Units(v.name) + Units(v.value) == units
  }

  lemma {:induction false} NoneOfSize(vs: seq<Var>, units: nat)
    requires forall i :: 0 <= i < |vs| ==> Weight(vs[i]) < units
    ensures Filter(vs, OfSize(units)) == []
  {
    if vs != [] {
      NoneOfSize(vs[..|vs| - 1], units);
    }
  }

  lemma FilterCons(v: Var, vs: seq<Var>, p: Var -> bool)
    ensures Filter([v] + vs, p) == (if p(v) then [v] else []) + Filter(vs, p)
  {
    FilterConcat([v], vs, p);
    FilterSnoc([], v, p);
    assert [] + [v] == [v];
  }

  lemma StableBehind(x: Var, rest: seq<Var>, inserted: seq<Var>, tail: seq<Var>, p: Var -> bool)
    requires Filter(inserted, p) == Filter(rest, p) + tail
    ensures Filter([x] + inserted, p) == Filter([x] + rest, p) + tail
  {
    FilterCons(x, rest, p);
    FilterCons(x, inserted, p);
    Assoc(if p(x) then [x] else [], Filter(rest, p), tail);
  }

  lemma Assoc(a: seq<Var>, b: seq<Var>, c: seq<Var>)
    ensures a + (b + c) == (a + b) + c
  {
  }

  lemma StableHere(v: Var, sorted: seq<Var>, p: Var -> bool)
    requires p(v) ==> Filter(sorted, p) == []
    ensures Filter([v] + sorted, p) == Filter(sorted, p) + (if p(v) then [v] else [])
  {
    FilterCons(v, sorted, p);
  }

  lemma {:induction false} InsertStable(sorted: seq<Var>, v: Var, units: nat)
    requires Heaviest(sorted)
    ensures Filter(InsertByWeight(sorted, v), OfSize(units))
            == Filter(sorted, OfSize(units)) + (if OfSize(units)(v) then [v] else [])
  {
    var p := OfSize(units);
    if sorted == [] {
      StableHere(v, [], p);
      assert [v] + [] == [v];
    } else if Weight(sorted[0]) >= Weight(v) {
      var x, rest := sorted[0], sorted[1..];
      InsertStable(rest, v, units);
      StableBehind(x, rest, InsertByWeight(rest, v), if p(v) then [v] else [], p);
      assert sorted == [x] + rest;
    } else {
      if p(v) {
        LighterNone(sorted, v, units);
      }
      StableHere(v, sorted, p);
    }
  }

  lemma LighterNone(sorted: seq<Var>, v: Var, units: nat)
    requires Heaviest(sorted) && sorted != [] && Weight(sorted[0]) < Weight(v) && OfSize(units)(v)
    ensures Filter(sorted, OfSize(units)) == []
  {
    NoneOfSize(sorted, units);
  }

  lemma {:induction false} SortStable(vs: seq<Var>, units: nat)
    ensures Filter(SortByWeight(vs), OfSize(units)) == Filter(vs, OfSize(units))
  {
    if vs != [] {
      var front, last := vs[..|vs| - 1], vs[|vs| - 1];
      SortStable(front, units);
      SortSorts(front);
      InsertStable(SortByWeight(front), last, units);
    }
  }

  /** Of the unprotected variables of one size, the dropped ones are the first, in their order. */
  lemma TiesInOrder(env: Env, sep: char, cap: int, units: nat)
    ensures var same := Filter(Filter(Merged(env, sep), (v: Var) => !IsProtected(v.name)), OfSize(units));
            Filter(Bound(env, sep, cap).dropped, OfSize(units)) <= same
  {
    SameFilter(Merged(env, sep));
    DropsInOrder(Merged(env, sep), cap, units);
  }

  lemma DropsInOrder(base: Env, cap: int, units: nat)
    ensures Filter(Drops(base, cap), OfSize(units)) <= Filter(Filter(base, Droppable()), OfSize(units))
  {
    var sorted, dropped := Candidates(base), Drops(base, cap);
    SortStable(Filter(base, Droppable()), units);
    var rest := sorted[|dropped|..];
    assert sorted == dropped + rest;
    FilterPrefix(dropped, rest, OfSize(units));
  }

  lemma FilterPrefix(front: seq<Var>, rest: seq<Var>, p: Var -> bool)
    ensures Filter(front, p) <= Filter(front + rest, p)
  {
    FilterConcat(front, rest, p);
    PrefixOfSum(Filter(front, p), Filter(rest, p));
  }

  lemma PrefixOfSum(a: seq<Var>, b: seq<Var>)
    ensures a <= a + b
  {
  }

  lemma {:induction false} SameFilter(base: Env)
    ensures Filter(base, Droppable()) == Filter(base, (v: Var) => !IsProtected(v.name))
  {
    if base != [] {
      SameFilter(base[..|base| - 1]);
    }
  }
}
