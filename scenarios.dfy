/**
 * The library's test scenarios, replayed on the model. A plain record
 * with the three parts the tests read stands in for `URLComponents`; each
 * caller closure gets its own label, so the lemmas can say which closures
 * ran, in order, and not only what the predicates answer.
 */
module TypicalScenarios {
  import opened Typical

  /** The host, scheme and path of a URL. */
  datatype Url = Url(host: string, scheme: string, path: string)

  /** The subject most tests use. */
  const Subject := Url("example.com", "http", "go/here")

  function HostIs(id: Label, host: string): Matching<Url>
  {
    Make(id, (u: Url) => u.host == host)
  }

  function SchemeIs(id: Label, scheme: string): Matching<Url>
  {
    Make(id, (u: Url) => u.scheme == scheme)
  }

  function PathIs(id: Label, path: string): Matching<Url>
  {
    Make(id, (u: Url) => u.path == path)
  }

  /** A host check passes on the subject and runs its closure once. */
  lemma SimpleMatching()
    ensures HostIs(1, "example.com").Test(Subject)
    ensures HostIs(1, "example.com").Calls(Subject) == [1]
  {
  }

  /** `check1 && check2 && check3` passes, running the three closures left to right. */
  lemma CombinedMatching()
    ensures var combined := And(And(HostIs(1, "example.com"), SchemeIs(2, "http")), PathIs(3, "go/here"));
            combined.Test(Subject) && combined.Calls(Subject) == [1, 2, 3]
  {
  }

  /**
   * With the scheme check expecting "https", `withAll` fails and stops at
   * that check; `withAny` passes on the first check alone.
   */
  lemma CombinedMatchingAllOrAny()
    ensures var checks := [HostIs(1, "example.com"), SchemeIs(2, "https"), PathIs(3, "go/here")];
            !AllOf(checks).Test(Subject) && AllOf(checks).Calls(Subject) == [1, 2]
            && AnyOf(checks).Test(Subject) && AnyOf(checks).Calls(Subject) == [1]
  {
  }

  /**
   * `(http || https) && !file` passes without running the https check,
   * `example` passes (the test also asserts it as the Bool negation
   * `!example.test(subject)` being false), and `withAll` over three
   * `withAny` aggregates passes. The `Not(example)` clause is an extra
   * check: the library's `!example` fails on the subject.
   */
  lemma ComplexCombinedMatching()
    ensures var anyHttp := And(Or(SchemeIs(4, "http"), SchemeIs(5, "https")), Not(SchemeIs(6, "file")));
            anyHttp.Test(Subject) && anyHttp.Calls(Subject) == [4, 6]
    ensures HostIs(1, "example.com").Test(Subject)
    ensures !(!HostIs(1, "example.com").Test(Subject))
    ensures !Not(HostIs(1, "example.com")).Test(Subject)
    ensures var anyHost := AnyOf([HostIs(1, "example.com"), HostIs(2, "zebra.com"), HostIs(3, "github.com")]);
            var anyHttp := And(Or(SchemeIs(4, "http"), SchemeIs(5, "https")), Not(SchemeIs(6, "file")));
            var anyPath := AnyOf([PathIs(7, "go/here"), PathIs(8, "go/there"), PathIs(9, "go/nowhere")]);
            AllOf([anyHost, anyHttp, anyPath]).Test(Subject)
  {
  }

  /**
   * `pick(when: http, then: example, else: path)`: on the subject the then
   * branch runs and passes; on an https URL with another path the else
   * branch runs and fails.
   */
  lemma PickFunction()
    ensures var picker := Pick(SchemeIs(2, "http"), HostIs(1, "example.com"), [PathIs(3, "go/here")]);
            picker.Test(Subject) && picker.Calls(Subject) == [2, 1]
    ensures var picker := Pick(SchemeIs(2, "http"), HostIs(1, "example.com"), [PathIs(3, "go/here")]);
            var other := Url("example.com", "https", "go/elsewhere");
            !picker.Test(other) && picker.Calls(other) == [2, 3]
  {
  }

  /** `Array.filter`: the elements that pass, in their order. */
  function Filter<S(!new)>(xs: seq<S>, p: Matching<S>): seq<S>
    decreases |xs|
  {
    if |xs| == 0 then [] else (if p.Test(xs[0]) then [xs[0]] else []) + Filter(xs[1..], p)
  }

  datatype Option<T> = None | Some(value: T)

  /** `Array.first(where:)`: the first element that passes, if any. */
  function FirstWhere<S(!new)>(xs: seq<S>, p: Matching<S>): Option<S>
    decreases |xs|
  {
    if |xs| == 0 then None else if p.Test(xs[0]) then Some(xs[0]) else FirstWhere(xs[1..], p)
  }

  /** `isgt3 && islt8 && !is3` selects [4, 5, 6, 7] from [1, ..., 9, 0], and the first match is 4. */
  lemma ArrayOperations()
    ensures var select := And(And(Make(2, (n: int) => n > 3), Make(3, (n: int) => n < 8)), Not(Make(1, (n: int) => n == 3)));
            var ints := [1, 2, 3, 4, 5, 6, 7, 8, 9, 0];
            Filter(ints, select) == [4, 5, 6, 7]
            && FirstWhere(ints, select) == Some(4)
  {
  }
}
