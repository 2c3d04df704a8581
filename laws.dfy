/**
 * Laws of the predicate algebra in module Typical: the evaluation order
 * and early exit of the aggregates, the boolean identities the operators
 * satisfy (on answers and on which caller closures run), and how `pick`
 * treats its else list.
 */
module TypicalLaws {
  import opened Typical

  // ---------------------------------------------------------------------
  // Evaluation order and early exit of the aggregates
  // ---------------------------------------------------------------------

  /** `withAll` tests the elements in order and none after the first one that fails. */
  lemma {:induction false} WithAllStopsAtFirstFalse<S(!new)>(ps: seq<Matching<S>>, s: S, k: nat)
    requires k < |ps| && !ps[k].Test(s)
    requires forall j :: 0 <= j < k ==> ps[j].Test(s)
    ensures !WithAll(ps).Test(s)
    ensures WithAll(ps).Calls(s) == CallsOf(ps[..k + 1], s)
  {
    if k == 0 {
      assert ps[..1][1..] == [];
    } else {
      assert ps[0].Test(s);
      WithAllStopsAtFirstFalse(ps[1..], s, k - 1);
      assert ps[..k + 1][1..] == ps[1..][..k];
    }
  }

  /** When every element passes, `withAll` tests each of them once, in order. */
  lemma {:induction false} WithAllRunsEveryElement<S(!new)>(ps: seq<Matching<S>>, s: S)
    requires forall j :: 0 <= j < |ps| ==> ps[j].Test(s)
    ensures WithAll(ps).Test(s)
    ensures WithAll(ps).Calls(s) == CallsOf(ps, s)
  {
    if |ps| > 0 {
      assert ps[0].Test(s);
      WithAllRunsEveryElement(ps[1..], s);
    }
  }

  /** `withAny` tests the elements in order and none after the first one that passes. */
  lemma {:induction false} WithAnyStopsAtFirstTrue<S(!new)>(ps: seq<Matching<S>>, s: S, k: nat)
    requires k < |ps| && ps[k].Test(s)
    requires forall j :: 0 <= j < k ==> !ps[j].Test(s)
    ensures WithAny(ps).Test(s)
    ensures WithAny(ps).Calls(s) == CallsOf(ps[..k + 1], s)
  {
    if k == 0 {
      assert ps[..1][1..] == [];
    } else {
      assert !ps[0].Test(s);
      WithAnyStopsAtFirstTrue(ps[1..], s, k - 1);
      assert ps[..k + 1][1..] == ps[1..][..k];
    }
  }

  /** When every element fails, `withAny` tests each of them once, in order. */
  lemma {:induction false} WithAnyRunsEveryElement<S(!new)>(ps: seq<Matching<S>>, s: S)
    requires forall j :: 0 <= j < |ps| ==> !ps[j].Test(s)
    ensures !WithAny(ps).Test(s)
    ensures WithAny(ps).Calls(s) == CallsOf(ps, s)
  {
    if |ps| > 0 {
      assert !ps[0].Test(s);
      WithAnyRunsEveryElement(ps[1..], s);
    }
  }

  // ---------------------------------------------------------------------
  // Boolean identities of `&&`, `||` and `!`
  // ---------------------------------------------------------------------

  /** `!!p` answers as `p` does and runs the same closures. */
  lemma DoubleNegation<S(!new)>(p: Matching<S>)
    ensures Equivalent(Not(Not(p)), p)
  {
  }

  /** `a && b && c` groups either way with the same answers and the same evaluation order. */
  lemma AndAssociative<S(!new)>(a: Matching<S>, b: Matching<S>, c: Matching<S>)
    ensures Equivalent(And(And(a, b), c), And(a, And(b, c)))
  {
  }

  /** `a || b || c` groups either way with the same answers and the same evaluation order. */
  lemma OrAssociative<S(!new)>(a: Matching<S>, b: Matching<S>, c: Matching<S>)
    ensures Equivalent(Or(Or(a, b), c), Or(a, Or(b, c)))
  {
  }

  /** De Morgan for the short-circuiting operators, evaluation order included. */
  lemma DeMorgan<S(!new)>(p: Matching<S>, q: Matching<S>)
    ensures Equivalent(Not(And(p, q)), Or(Not(p), Not(q)))
    ensures Equivalent(Not(Or(p, q)), And(Not(p), Not(q)))
  {
  }

  // ---------------------------------------------------------------------
  // The aggregates as folds of the binary operators
  // ---------------------------------------------------------------------

  /** `withAll` over one element behaves as that element; so does `withAny`. */
  lemma SingleAggregate<S(!new)>(p: Matching<S>)
    ensures Equivalent(WithAll([p]), p)
    ensures Equivalent(WithAny([p]), p)
  {
    forall s
      ensures WithAll([p]).Test(s) == p.Test(s) && WithAll([p]).Calls(s) == p.Calls(s)
      ensures WithAny([p]).Test(s) == p.Test(s) && WithAny([p]).Calls(s) == p.Calls(s)
    {
      assert [p][0] == p && [p][1..] == [];
      assert AllRun([], s) == Run(true, []) && AnyRun([], s) == Run(false, []);
    }
  }

  /** `withAll` over a concatenation is `&&` of the two halves, evaluation order included. */
  lemma {:induction false} WithAllAppend<S(!new)>(ps: seq<Matching<S>>, qs: seq<Matching<S>>, s: S)
    ensures WithAll(ps + qs).Test(s) == And(WithAll(ps), WithAll(qs)).Test(s)
    ensures WithAll(ps + qs).Calls(s) == And(WithAll(ps), WithAll(qs)).Calls(s)
  {
    if |ps| == 0 {
      assert ps + qs == qs;
    } else {
      assert (ps + qs)[1..] == ps[1..] + qs;
      WithAllAppend(ps[1..], qs, s);
    }
  }

  /** `withAny` over a concatenation is `||` of the two halves, evaluation order included. */
  lemma {:induction false} WithAnyAppend<S(!new)>(ps: seq<Matching<S>>, qs: seq<Matching<S>>, s: S)
    ensures WithAny(ps + qs).Test(s) == Or(WithAny(ps), WithAny(qs)).Test(s)
    ensures WithAny(ps + qs).Calls(s) == Or(WithAny(ps), WithAny(qs)).Calls(s)
  {
    if |ps| == 0 {
      assert ps + qs == qs;
    } else {
      assert (ps + qs)[1..] == ps[1..] + qs;
      WithAnyAppend(ps[1..], qs, s);
    }
  }

  /** `Typical.withAll(a, b, c)` is `a && b && c`; `Typical.withAny(a, b, c)` is `a || b || c`. */
  lemma ThreeArguments<S(!new)>(a: Matching<S>, b: Matching<S>, c: Matching<S>, s: S)
    ensures AllOf([a, b, c]).Test(s) == And(And(a, b), c).Test(s)
    ensures AllOf([a, b, c]).Calls(s) == And(And(a, b), c).Calls(s)
    ensures AnyOf([a, b, c]).Test(s) == Or(Or(a, b), c).Test(s)
    ensures AnyOf([a, b, c]).Calls(s) == Or(Or(a, b), c).Calls(s)
  {
    SingleAggregate(c);
    SingleAggregate(b);
    SingleAggregate(a);
    assert [a, b, c] == [a] + [b] + [c];
    WithAllAppend([a] + [b], [c], s);
    WithAllAppend([a], [b], s);
    WithAnyAppend([a] + [b], [c], s);
    WithAnyAppend([a], [b], s);
  }

  /** Every element of `ps` negated, in the same order. */
  function Negations<S(!new)>(ps: seq<Matching<S>>): (r: seq<Matching<S>>)
    ensures |r| == |ps|
    ensures forall i :: 0 <= i < |ps| ==> r[i] == Not(ps[i])
    decreases |ps|
  {
    if |ps| == 0 then [] else [Not(ps[0])] + Negations(ps[1..])
  }

  /** `withAny` is `!` of `withAll` over the negated elements, evaluation order included. */
  lemma {:induction false} WithAnyIsDualOfWithAll<S(!new)>(ps: seq<Matching<S>>, s: S)
    ensures WithAny(ps).Test(s) == Not(WithAll(Negations(ps))).Test(s)
    ensures WithAny(ps).Calls(s) == Not(WithAll(Negations(ps))).Calls(s)
  {
    if |ps| > 0 {
      var ns := Negations(ps);
      assert ns[0] == Not(ps[0]) && ns[1..] == Negations(ps[1..]);
      WithAnyIsDualOfWithAll(ps[1..], s);
    }
  }

  // ---------------------------------------------------------------------
  // `pick(when:then:else:)`
  // ---------------------------------------------------------------------

  /** With one else test, `pick` is the plain ternary, evaluation order included. */
  lemma PickWithOneElse<S(!new)>(condition: Matching<S>, thenTest: Matching<S>, elseTest: Matching<S>, s: S)
    ensures Pick(condition, thenTest, [elseTest]).Test(s)
         == if condition.Test(s) then thenTest.Test(s) else elseTest.Test(s)
    ensures Pick(condition, thenTest, [elseTest]).Calls(s)
         == condition.Calls(s) + if condition.Test(s) then thenTest.Calls(s) else elseTest.Calls(s)
  {
    SingleAggregate(elseTest);
  }

  /**
   * The else list is combined with `withAll`, not `withAny`: with a false
   * condition and the else list [always true, always false], `pick`
   * answers false where `withAny` over the same list answers true.
   */
  lemma PickElseListIsAllOf()
    ensures var yes := Make(1, (n: int) => true);
            var no := Make(2, (n: int) => false);
            !Pick(no, yes, [yes, no]).Test(0) && WithAny([yes, no]).Test(0)
  {
  }
}
