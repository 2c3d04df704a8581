/**
 * The predicate-composition library: a predicate wraps one test function
 * over a caller-defined subject type, and the combinators build new
 * predicates from existing ones (AND, OR, NOT, ALL-of, ANY-of and the
 * ternary selector PICK).
 *
 * Every predicate is one value of `Matching<S>`, the library's only
 * implementation of its `Typical` protocol. Its stored function is
 * instrumented: besides the boolean answer it reports, in call order, the
 * labels of the caller-supplied closures that ran while the answer was
 * computed. That log is how the model observes short-circuit evaluation:
 * a sub-predicate that is "not evaluated" contributes nothing to it.
 */
module Typical {

  /** Names one caller-supplied test closure, so that its calls can be seen. */
  type Label = nat

  /** The outcome of one call of `test`: the answer, and the caller closures that ran, in order. */
  datatype Run = Run(result: bool, calls: seq<Label>)

  /** A predicate over subjects of type `S` (the class `Matching<T>`). */
  datatype Matching<!S> = Matching(stored: S -> Run)
  {
    /** `test(_:)`: calls the stored function afresh; nothing is cached. */
    function Test(s: S): bool
    {
      stored(s).result
    }

    /** The caller closures that run during one `test(s)`, in call order. */
    function Calls(s: S): seq<Label>
    {
      stored(s).calls
    }
  }

  /**
   * `Matching(_ test:)` applied to a caller's closure `f`, which the model
   * names `id`: every test runs `f` exactly once and answers what `f` answers.
   */
  function Make<S(!new)>(id: Label, f: S -> bool): (p: Matching<S>)
    ensures forall s :: p.Test(s) == f(s)
    ensures forall s :: p.Calls(s) == [id]
  {
    Matching(s => Run(f(s), [id]))
  }

  /** Two predicates give the same answer and run the same caller closures on every subject. */
  ghost predicate Equivalent<S(!new)>(p: Matching<S>, q: Matching<S>)
  {
    forall s :: p.Test(s) == q.Test(s) && p.Calls(s) == q.Calls(s)
  }

  /** The log of testing every element of `ps` once, front to back. */
  ghost function CallsOf<S(!new)>(ps: seq<Matching<S>>, s: S): seq<Label>
    decreases |ps|
  {
    if |ps| == 0 then [] else ps[0].Calls(s) + CallsOf(ps[1..], s)
  }

  // ---------------------------------------------------------------------
  // Boolean operators `&&`, `||` and prefix `!`
  // ---------------------------------------------------------------------

  /** `lhs && rhs`: `rhs` runs only when `lhs` answered true. */
  function And<S(!new)>(lhs: Matching<S>, rhs: Matching<S>): (r: Matching<S>)
    ensures forall s :: r.Test(s) == (lhs.Test(s) && rhs.Test(s))
    ensures forall s :: !lhs.Test(s) ==> r.Calls(s) == lhs.Calls(s)
    ensures forall s :: lhs.Test(s) ==> r.Calls(s) == lhs.Calls(s) + rhs.Calls(s)
  {
    Matching(s =>
      var left := lhs.stored(s);
      if !left.result then left
      else
        var right := rhs.stored(s);
        Run(right.result, left.calls + right.calls))
  }

  /** `lhs || rhs`: `rhs` runs only when `lhs` answered false. */
  function Or<S(!new)>(lhs: Matching<S>, rhs: Matching<S>): (r: Matching<S>)
    ensures forall s :: r.Test(s) == (lhs.Test(s) || rhs.Test(s))
    ensures forall s :: lhs.Test(s) ==> r.Calls(s) == lhs.Calls(s)
    ensures forall s :: !lhs.Test(s) ==> r.Calls(s) == lhs.Calls(s) + rhs.Calls(s)
  {
    Matching(s =>
      var left := lhs.stored(s);
      if left.result then left
      else
        var right := rhs.stored(s);
        Run(right.result, left.calls + right.calls))
  }

  /** `!typical`: the opposite answer, from exactly one test of `typical`. */
  function Not<S(!new)>(typical: Matching<S>): (r: Matching<S>)
    ensures forall s :: r.Test(s) == !typical.Test(s)
    ensures forall s :: r.Calls(s) == typical.Calls(s)
  {
    Matching(s =>
      var inner := typical.stored(s);
      Run(!inner.result, inner.calls))
  }

  // ---------------------------------------------------------------------
  // `Collection.withAll` and `Collection.withAny`
  // ---------------------------------------------------------------------

  /**
   * What the closure of `withAll` computes: the elements are tested front
   * to back, and the first that answers false ends the loop with false.
   */
  function AllRun<S(!new)>(ps: seq<Matching<S>>, s: S): (r: Run)
    ensures r.result <==> forall i :: 0 <= i < |ps| ==> ps[i].Test(s)
    decreases |ps|
  {
    if |ps| == 0 then Run(true, [])
    else
      var first := ps[0].stored(s);
      if !first.result then first
      else
        var rest := AllRun(ps[1..], s);
        Run(rest.result, first.calls + rest.calls)
  }

  /**
   * What the closure of `withAny` computes: the elements are tested front
   * to back, and the first that answers true ends the loop with true.
   */
  function AnyRun<S(!new)>(ps: seq<Matching<S>>, s: S): (r: Run)
    ensures r.result <==> exists i :: 0 <= i < |ps| && ps[i].Test(s)
    decreases |ps|
  {
    if |ps| == 0 then Run(false, [])
    else
      var first := ps[0].stored(s);
      if first.result then first
      else
        var rest := AnyRun(ps[1..], s);
        AnyPastFailingHead(ps, s);
        Run(rest.result, first.calls + rest.calls)
  }

  /** Splits "some element passes" at the first element, when that one fails. */
  lemma AnyPastFailingHead<S(!new)>(ps: seq<Matching<S>>, s: S)
    requires |ps| > 0 && !ps[0].Test(s)
    ensures (exists i :: 0 <= i < |ps| && ps[i].Test(s))
        <==> (exists i :: 0 <= i < |ps[1..]| && ps[1..][i].Test(s))
  {
    if i :| 0 <= i < |ps| && ps[i].Test(s) {
      assert i > 0 && ps[1..][i - 1].Test(s);
    }
  }

  /** `tests.withAll`: true exactly when every element is true; an empty collection is always true. */
  function WithAll<S(!new)>(tests: seq<Matching<S>>): (r: Matching<S>)
    ensures forall s :: r.Test(s) <==> forall i :: 0 <= i < |tests| ==> tests[i].Test(s)
    ensures |tests| == 0 ==> forall s :: r.Test(s) && r.Calls(s) == []
  {
    Matching(s => AllRun(tests, s))
  }

  /** `tests.withAny`: true exactly when some element is true; an empty collection is always false. */
  function WithAny<S(!new)>(tests: seq<Matching<S>>): (r: Matching<S>)
    ensures forall s :: r.Test(s) <==> exists i :: 0 <= i < |tests| && tests[i].Test(s)
    ensures |tests| == 0 ==> forall s :: !r.Test(s) && r.Calls(s) == []
  {
    Matching(s => AnyRun(tests, s))
  }

  /**
   * The `for` loop inside the closure of `withAll`, run on one subject:
   * `guard typical.test(s) else { return false }`, then `return true`.
   * `calls` is the log of the caller closures the loop ran.
   */
  method TestWithAll<S(!new)>(tests: seq<Matching<S>>, s: S) returns (r: bool, calls: seq<Label>)
    ensures r <==> forall i :: 0 <= i < |tests| ==> tests[i].Test(s)
    ensures r == WithAll(tests).Test(s) && calls == WithAll(tests).Calls(s)
  {
    calls := [];
    var i := 0;
    while i < |tests|
      invariant 0 <= i <= |tests|
      invariant AllRun(tests, s) == Run(AllRun(tests[i..], s).result, calls + AllRun(tests[i..], s).calls)
    {
      assert tests[i..][1..] == tests[i + 1..];
      var outcome := tests[i].stored(s);
      calls := calls + outcome.calls;
      if !outcome.result {
        return false, calls;
      }
      i := i + 1;
    }
    assert tests[i..] == [];
    return true, calls;
  }

  /**
   * The `for` loop inside the closure of `withAny`, run on one subject:
   * `guard !typical.test(s) else { return true }`, then `return false`.
   */
  method TestWithAny<S(!new)>(tests: seq<Matching<S>>, s: S) returns (r: bool, calls: seq<Label>)
    ensures r <==> exists i :: 0 <= i < |tests| && tests[i].Test(s)
    ensures r == WithAny(tests).Test(s) && calls == WithAny(tests).Calls(s)
  {
    calls := [];
    var i := 0;
    while i < |tests|
      invariant 0 <= i <= |tests|
      invariant AnyRun(tests, s) == Run(AnyRun(tests[i..], s).result, calls + AnyRun(tests[i..], s).calls)
    {
      assert tests[i..][1..] == tests[i + 1..];
      var outcome := tests[i].stored(s);
      calls := calls + outcome.calls;
      if outcome.result {
        return true, calls;
      }
      i := i + 1;
    }
    assert tests[i..] == [];
    return false, calls;
  }

  // ---------------------------------------------------------------------
  // The static members of `extension Typical`
  // ---------------------------------------------------------------------

  /** `Typical.withAll(tests...)`: the collection's `withAll` over the argument list. */
  function AllOf<S(!new)>(tests: seq<Matching<S>>): (r: Matching<S>)
    ensures forall s :: r.Test(s) <==> forall i :: 0 <= i < |tests| ==> tests[i].Test(s)
    ensures Equivalent(r, WithAll(tests))
  {
    WithAll(tests)
  }

  /** `Typical.withAny(tests...)`: the collection's `withAny` over the argument list. */
  function AnyOf<S(!new)>(tests: seq<Matching<S>>): (r: Matching<S>)
    ensures forall s :: r.Test(s) <==> exists i :: 0 <= i < |tests| && tests[i].Test(s)
    ensures Equivalent(r, WithAny(tests))
  {
    WithAny(tests)
  }

  /**
   * `Typical.pick(when:then:else:)`: `condition` is tested once; when it is
   * true the answer is `thenTest`'s, otherwise it is `withAll` over the
   * else list. Only the chosen side runs.
   */
  function Pick<S(!new)>(condition: Matching<S>, thenTest: Matching<S>, elseTests: seq<Matching<S>>): (r: Matching<S>)
    ensures forall s :: condition.Test(s) ==>
      r.Test(s) == thenTest.Test(s) && r.Calls(s) == condition.Calls(s) + thenTest.Calls(s)
    ensures forall s :: !condition.Test(s) ==>
      (r.Test(s) <==> forall i :: 0 <= i < |elseTests| ==> elseTests[i].Test(s))
    ensures forall s :: !condition.Test(s) ==>
      r.Calls(s) == condition.Calls(s) + WithAll(elseTests).Calls(s)
  {
    Matching(s =>
      var chosen := condition.stored(s);
      var branch := if chosen.result then thenTest.stored(s) else WithAll(elseTests).stored(s);
      Run(branch.result, chosen.calls + branch.calls))
  }
}
