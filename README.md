# Typical: a predicate-composition algebra, in Dafny

Typical is a small Swift library. A *predicate* wraps one test function
`Subject -> Bool`, and the library builds new predicates from existing ones:

- the binary short-circuiting operators `&&` and `||`, and prefix `!`;
- `withAll` and `withAny` over a collection of predicates, whose closures
  loop over the collection in order and return early;
- the variadic static forms `Typical.withAll(...)` and `Typical.withAny(...)`;
- the ternary selector `pick(when:then:else:)`.

`Matching<T>` is the one implementation of the `Typical` protocol. It stores
the function and calls it on every `test`.

The model has three modules:

- `Typical` (`typical.dfy`) holds the library.
  - A predicate is a value of the datatype `Matching<S>`.
  - Its stored function returns a `Run`: the boolean answer, plus the list of
    the caller closures that ran while computing it, in call order. Each
    closure is identified by a `Label`.
  - `Make(id, f)` is `Matching.init` applied to a caller's closure `f`. Each
    test of it runs `f` once and logs `id`. It plays the role of a closure with
    a side-effect counter, so short-circuit evaluation can be observed: a
    sub-predicate that is not evaluated adds nothing to the log.
  - The combinators are functions that return new predicates.
  - Each aggregate's closure is a recursive function (`AllRun`, `AnyRun`).
  - The `for` loop of each aggregate is a method with a `while` loop
    (`TestWithAll`, `TestWithAny`), proved to compute the same answer and log.
- `TypicalLaws` (`laws.dfy`) holds lemmas relating the combinators:
  - the evaluation order and early exit of the aggregates;
  - the boolean identities, stated on the log as well as on the answer;
  - the aggregates as folds of `&&` and `||`;
  - how `pick` treats its else list.
- `TypicalScenarios` (`scenarios.dfy`) replays the library's unit tests. A
  plain `Url` record stands in for `URLComponents`.

`pick` combines its else list with `withAll` (`Typical/Typical.swift:17`),
not `withAny`. The model does the same: `Pick` uses `WithAll`.

- With one else predicate the two agree: `TypicalLaws.SingleAggregate` shows
  `withAll` and `withAny` of a single predicate both behave as that predicate,
  and `TypicalLaws.PickWithOneElse` uses it to reduce `pick` to the plain
  ternary. The tests only use this case.
- `TypicalLaws.PickElseListIsAllOf` gives a two-element else list on which
  `withAll` and `withAny` differ.

## Model

| member | source | states |
|---|---|---|
| `Typical.Make` | Typical/Typical.swift:61-70 | Building a `Matching` from a closure `f` gives a predicate whose every test answers `f(s)` and runs `f` exactly once. Nothing is cached. |
| `Typical.And` | Typical/Typical.swift:29-31 | `(lhs && rhs).test(s)` is `lhs.test(s) && rhs.test(s)`. When `lhs` fails, only `lhs` runs. Otherwise `lhs` runs and then `rhs`, once each. |
| `Typical.Or` | Typical/Typical.swift:33-35 | `(lhs \|\| rhs).test(s)` is `lhs.test(s) \|\| rhs.test(s)`. When `lhs` passes, only `lhs` runs. Otherwise `lhs` runs and then `rhs`, once each. |
| `Typical.Not` | Typical/Typical.swift:37-39 | `(!p).test(s)` is `!p.test(s)`, computed from exactly one test of `p`. |
| `Typical.AllRun` | Typical/Typical.swift:43-48 | The `withAll` closure answers true exactly when every element of the collection passes. |
| `Typical.AnyRun` | Typical/Typical.swift:52-57 | The `withAny` closure answers true exactly when some element of the collection passes. |
| `Typical.WithAll` | Typical/Typical.swift:42-49 | `tests.withAll` passes exactly when every element passes. An empty collection always passes and runs nothing. |
| `Typical.WithAny` | Typical/Typical.swift:51-58 | `tests.withAny` passes exactly when some element passes. An empty collection always fails and runs nothing. |
| `Typical.TestWithAll` | Typical/Typical.swift:44-47 | The `for`/`guard` loop returns true exactly when every element passes. Its answer and the closures it runs are exactly those of `withAll`. |
| `Typical.TestWithAny` | Typical/Typical.swift:53-56 | The `for`/`guard` loop returns true exactly when some element passes. Its answer and the closures it runs are exactly those of `withAny`. |
| `Typical.AllOf` | Typical/Typical.swift:20-22 | `Typical.withAll(tests...)` passes exactly when every argument passes, and behaves as `withAll` over the argument list. |
| `Typical.AnyOf` | Typical/Typical.swift:24-26 | `Typical.withAny(tests...)` passes exactly when some argument passes, and behaves as `withAny` over the argument list. |
| `Typical.Pick` | Typical/Typical.swift:16-18 | `when` is tested exactly once. If it passes, the answer is `then`'s, and only `when` and `then` run. If it fails, the answer is true exactly when every else predicate passes, and only `when` and the `withAll` of the else list run. |
| `TypicalLaws.WithAllStopsAtFirstFalse` | Typical/Typical.swift:44-46 | If element k is the first to fail, `withAll` fails. It runs elements 0..k in order, once each, and never runs a later element. |
| `TypicalLaws.WithAllRunsEveryElement` | Typical/Typical.swift:44-47 | If every element passes, `withAll` passes after running every element once, in order. |
| `TypicalLaws.WithAnyStopsAtFirstTrue` | Typical/Typical.swift:53-55 | If element k is the first to pass, `withAny` passes. It runs elements 0..k in order, once each, and never runs a later element. |
| `TypicalLaws.WithAnyRunsEveryElement` | Typical/Typical.swift:53-56 | If every element fails, `withAny` fails after running every element once, in order. |
| `TypicalLaws.DoubleNegation` | Typical/Typical.swift:37-39 | `!!p` answers as `p` does and runs the same closures. |
| `TypicalLaws.AndAssociative` | Typical/Typical.swift:29-31 | `(a && b) && c` and `a && (b && c)` give the same answers and run the same closures in the same order. |
| `TypicalLaws.OrAssociative` | Typical/Typical.swift:33-35 | `(a \|\| b) \|\| c` and `a \|\| (b \|\| c)` give the same answers and run the same closures in the same order. |
| `TypicalLaws.DeMorgan` | Typical/Typical.swift:29-39 | `!(p && q)` behaves exactly as `!p \|\| !q`, and `!(p \|\| q)` as `!p && !q`, evaluation order included. |
| `TypicalLaws.SingleAggregate` | Typical/Typical.swift:42-58 | `withAll` and `withAny` over a single predicate behave exactly as that predicate. |
| `TypicalLaws.WithAllAppend` | Typical/Typical.swift:42-49 | `withAll` over `ps + qs` behaves exactly as `ps.withAll && qs.withAll`, evaluation order included. |
| `TypicalLaws.WithAnyAppend` | Typical/Typical.swift:51-58 | `withAny` over `ps + qs` behaves exactly as `ps.withAny \|\| qs.withAny`, evaluation order included. |
| `TypicalLaws.ThreeArguments` | Typical/Typical.swift:20-35 | `Typical.withAll(a, b, c)` behaves as `a && b && c`, and `Typical.withAny(a, b, c)` as `a \|\| b \|\| c`. |
| `TypicalLaws.WithAnyIsDualOfWithAll` | Typical/Typical.swift:42-58 | `withAny` over `ps` behaves as `!` of `withAll` over the negated elements of `ps`, evaluation order included. |
| `TypicalLaws.PickWithOneElse` | Typical/Typical.swift:16-18 | With one else predicate `e`, `pick` answers `when ? then : e` and runs `when` and then the chosen side. |
| `TypicalLaws.PickElseListIsAllOf` | Typical/Typical.swift:17 | With the else list [always true, always false] and a failing `when`, `pick` fails, although `withAny` over that list passes. |
| `TypicalScenarios.SimpleMatching` | TypicalTests/TypicalTests.swift:24-27 | The host check passes on the test subject. |
| `TypicalScenarios.CombinedMatching` | TypicalTests/TypicalTests.swift:29-35 | `check1 && check2 && check3` passes on the subject, running the three checks left to right. |
| `TypicalScenarios.CombinedMatchingAllOrAny` | TypicalTests/TypicalTests.swift:37-45 | `withAll` of the three checks fails and stops at the scheme check. `withAny` passes after running only the host check. |
| `TypicalScenarios.ComplexCombinedMatching` | TypicalTests/TypicalTests.swift:61-85 | `(http \|\| https) && !file` passes without running the https check. `example` passes, checked directly and as the Bool negation `!example.test(subject)`. `withAll` of the three aggregates passes. The model also checks that the library's `!example` fails. |
| `TypicalScenarios.PickFunction` | TypicalTests/TypicalTests.swift:87-105 | `pick(when: http, then: example, else: path)` passes on the subject and fails on the https subject, running `when` then the chosen branch. |
| `TypicalScenarios.ArrayOperations` | TypicalTests/TypicalTests.swift:47-59 | Filtering `[1,...,9,0]` with `isgt3 && islt8 && !is3` gives `[4,5,6,7]`, and the first match is `4`. |

## Left out

- The `Typical` protocol with its associated type and required generic `init` is not modelled as such. The library's combinators are generic over any conforming type, but `Matching` is the only one, so the model has the single datatype `Matching<S>`. Its constructor plays the part of `init`.
- `Matching` is a `final class` in Swift. Its one field is written only by `init`, so the model treats a predicate as a value. Reference identity is not modelled.
- Closures that throw or do not terminate are not modelled. Dafny functions are total, and the library only propagates such failures to its caller.
- `Collection` is any Swift collection. The model uses a `seq`, in the collection's iteration order.
- The variadic parameter lists of `withAll`, `withAny` and `pick` are `seq` arguments.
- The labels and the call log are how the model observes evaluation. They stand for the side effects of the caller's closures. Swift itself keeps no such log.
- In the test scenarios, `URLComponents` is replaced by a record of three strings. Swift's optional `host` is not modelled. `Array.filter` and `Array.first(where:)` are small recursive functions in `TypicalScenarios`.
