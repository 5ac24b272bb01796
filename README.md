# jLinq operators in Dafny

jLinq adds LINQ-style, read-only operators to JavaScript arrays. This
project models the six that `src/jLinq.js` defines — `all`, `any`,
`average`, `contains`, `count` and `select` — and proves what each returns,
including the exact errors it raises and the order in which it checks its
arguments.

Files:

- `js_runtime.dfy` (module `JsRuntime`): the JavaScript notions the
  operators depend on.
  - `JsVal` is a callback result: a boolean, or some other value reduced to
    its truthiness.
  - `Arg` is the kind of a callback argument: `Missing` (`undefined`),
    `NotFunction(truthy)` (null, a number, an object, ...), or `Fn(f)`.
  - `Maybe` is a value argument that may be `undefined`.
  - `Error` is either `Thrown(message)` (the library's own `new Error(...)`)
    or `NotCallable` (the TypeError raised when a non-function is called).
- `jlinq.dfy` (module `JLinq`): the operators.
  - `all`, `any` and `contains` are `for…of` loops with an early `return`.
    They are modelled as methods with `while` loops, each proved equal to a
    specification function in quantifier form (`AllOf`, `AnyOf`,
    `ContainsOf`).
  - `count`, `select` and `average` are single expressions over `filter`,
    `map` and `reduce`. They are modelled as functions over `Filter`, `Map`
    and `SumFrom`.
- `jlinq_laws.dfy` (module `JLinqLaws`): laws that relate the operators to
  each other and to reference definitions.

The model follows the code where it departs from the doc comments in
`src/jLinq.js` and from the tests in `test/tests.js`:

- `all` only fails on a result that is exactly `false`, and `any` only
  succeeds on a result that is exactly `true`. The doc comments
  (src/jLinq.js:5-11, 26-33) speak of elements that "satisfy a condition".
- `average` of an empty array divides 0 by 0. There is no check for an
  empty array.
- `select` does no validation of its own. A non-callable selector ends in
  the TypeError that `Array.prototype.map` raises, even on an empty array.
  It does not raise "Invalid selector.", which the tests at
  test/tests.js:10-16 expect.
- A truthy non-function predicate passed to `all` or `any` passes the
  `!predicate` check. It raises a TypeError only when it is called, so on
  an empty array `all` returns true and `any` returns false.

## Model

| member | source | states |
|---|---|---|
| `JLinq.All` | src/jLinq.js:12-24 | A falsy predicate raises "Invalid predicate." before any element is looked at. A function predicate gives true iff no element's result is exactly `false`; non-boolean falsy results do not count. The empty sequence gives true. A truthy non-function gives true on the empty sequence and the call's TypeError otherwise. |
| `JLinq.Any` | src/jLinq.js:34-46 | A falsy predicate gives `length > 0`. A function predicate gives true iff some element's result is exactly `true`, so false on the empty sequence. A truthy non-function gives false on the empty sequence and the call's TypeError otherwise. |
| `JLinq.Contains` | src/jLinq.js:77-99 | An undefined value raises "Expected a value." whatever the comparer is. Otherwise a supplied non-function comparer raises "Invalid comparer.". The result is true iff some element `x` makes `comparer(x, value)` truthy, with loose equality when no comparer is given. It is false on the empty sequence. |
| `JLinq.Filter` | src/jLinq.js:122 | `filter` returns no more elements than its input. |
| `JLinq.FilterKeepsOnlyInputElements` | src/jLinq.js:122 | Every element of `filter`'s result is an element of its input. |
| `JLinq.FilterIsSubMultiset` | src/jLinq.js:122 | `filter` keeps no element more often than it occurs in the input. |
| `JLinq.FilterCountsPassing` | src/jLinq.js:122 | The length of `filter`'s result equals the number of indices whose element the predicate accepts (truthy result). |
| `JLinq.Count` | src/jLinq.js:111-123 | An undefined predicate gives the length. Any other non-function (null included) raises "Invalid predicate.". A function gives the number of indices whose predicate result is truthy, which is at most the length. |
| `JLinq.Map` | src/jLinq.js:132 | `map` keeps the length, and element `i` of its result is `selector(s[i], i)`. |
| `JLinq.Select` | src/jLinq.js:131-133 | A non-callable selector gives the run time's TypeError and nothing else does. A function selector gives a sequence of the same length whose element `i` is `selector(s[i], i)`. |
| `JLinq.SumFromIsTotal` | src/jLinq.js:65 | The left fold `x + selector(y)` started from any accumulator equals that accumulator plus the right-to-left total `Total` of the selected values. |
| `JLinq.Average` | src/jLinq.js:56-66 | A selector that is undefined or not a function raises "Invalid selector.". Otherwise the result is the fraction whose numerator is the total of the selected values and whose denominator is the length. |
| `JLinqLaws.FilterKeepsAll` | src/jLinq.js:122 | `filter` keeps as many elements as its input iff the predicate accepts every element. |
| `JLinqLaws.FilterAcceptingAllIsCopy` | src/jLinq.js:122 | When the predicate accepts every element, `filter` returns an equal sequence. |
| `JLinqLaws.FilterKeepsNone` | src/jLinq.js:122 | `filter` keeps nothing iff the predicate rejects every element. |
| `JLinqLaws.FilterComplement` | src/jLinq.js:122 | A predicate and its negation together keep exactly as many elements as the input has. |
| `JLinqLaws.CountWithoutPredicateCountsAll` | src/jLinq.js:111-123 | `count()` equals `count(() => true)`. |
| `JLinqLaws.CountComplement` | src/jLinq.js:111-123 | `count(p) + count(not p)` equals the length. |
| `JLinqLaws.AllAgreesWithCount` | src/jLinq.js:12-24 | For a predicate returning only booleans, `all(p)` is true iff `count(p)` equals the length. |
| `JLinqLaws.AnyAgreesWithCount` | src/jLinq.js:34-46 | For a predicate returning only booleans, `any(p)` is true iff `count(p)` is positive. |
| `JLinqLaws.StrictTestsIgnoreNonBooleans` | src/jLinq.js:17-45 | For every sequence on which the predicate returns only non-booleans, `all` is true and `any` is false, whatever their truthiness. If every such result is falsy, `count` is 0. If every one is truthy, `count` is the length. |
| `JLinqLaws.ContainsDefaultIsLooseEquality` | src/jLinq.js:88-90 | Leaving out the comparer gives the same result as passing `(x, y) => x == y`. |
| `JLinqLaws.ContainsPassesElementFirst` | src/jLinq.js:92-96 | The comparer gets the element first and the sought value second. With `(x, y) => x < y`, `[1].contains(2)` holds and `[2].contains(1)` does not. |
| `JLinqLaws.SelectIdentity` | test/tests.js:18-23 | A selector that returns its element makes `select` return an equal sequence. |
| `JLinqLaws.SelectCompose` | test/tests.js:72-78 | `select(f)` followed by `select(g)` equals `select` of the composition, with both stages seeing the same index. |
| `JLinqLaws.TotalOfConstant` | src/jLinq.js:65 | With a constant selector `c`, the total is `c` times the length. |
| `JLinqLaws.AverageOfOnes` | src/jLinq.js:65 | `average(x => 1)` divides the length by the length. |

## Left out

- The `Array.prototype` assignments and the surrounding IIFE (src/jLinq.js:3, 12, 134) are module-load side effects. Each operator is a plain function or method over a `seq`.
- The `Object.prototype.toString` probe is not modelled. A callback argument is given as an `Arg` tag instead: `Missing`, `NotFunction(truthy)` or `Fn`.
- The floating-point division in `average` is not modelled, nor its NaN on an empty array. `JLinq.Average` returns the numerator and the denominator (`Mean(sum, count)`) instead of their quotient.
- JLinq.Average: the model's sum is an exact, unbounded integer. JavaScript adds doubles, so its sum rounds once a partial sum passes ±2^53. For example, `[2**53, 1].average(x => x)` sums to 2^53 in JavaScript but to 2^53 + 1 in the model.
- JLinq.Average: selector results are integers. JavaScript's `+` on non-numbers (string concatenation, `NaN`) is not modelled.
- Loose equality `==` is not modelled. It is the parameter `looseEq` of `Contains`.
- Callbacks are total, pure functions. A predicate, selector or comparer that throws, loops or mutates the array is not modelled.
- The third argument (the array) that `filter` and `map` pass to their callbacks is not modelled.
- Holes in sparse arrays are not modelled. `filter`, `map` and the `reduce` in `average` skip them, but `for…of` visits them and `this.length` counts them (so `average`'s denominator would include them).
- JLinq.Filter: its contract and the lemmas about it do not state which elements are kept, nor that they keep their relative order. They state how many are kept (`FilterCountsPassing`), that each kept element comes from the input, and that none is kept more often than it occurs. `count` uses only the length of the result.
- The test expectations that `select` raises "Invalid selector." (test/tests.js:10-16) and passes indices as strings (test/tests.js:29) are not promised. The code does neither.
- `distinct`, `except`, `intersect`, an internal deduplicating set, `first`, `single`, `elementAt`, `min`/`max`, `range`, `repeat`, `where` and `defaultIfEmpty` are not part of this model. The source holds no code for them.
