/** The six read-only operators that jLinq adds to arrays: all, any,
    average, contains, count and select. None of them changes its input;
    each checks its arguments, then scans, filters, maps or folds the
    sequence and returns a scalar or a new sequence. */
module JLinq {
  import opened JsRuntime

  // ---------------------------------------------------------------------
  // all
  // ---------------------------------------------------------------------

  /** What `all` returns: an error when the predicate is falsy; for a
      truthy value that is not a function, the TypeError of calling it
      (which only happens if there is an element to call it on); and for
      a function, whether no element's result is exactly `false`. */
  function AllOf<T>(s: seq<T>, pred: Arg<T -> JsVal>): Result<bool> {
    match pred
    case Fn(p) => Ok(forall i :: 0 <= i < |s| ==> p(s[i]) != Bool(false))
    case _ =>
      if !pred.Truthy() then Err(Thrown(INVALID_PREDICATE))
      else if |s| == 0 then Ok(true)
      else Err(NotCallable)
  }

  /** The scan of `all`: stops at the first element whose result is
      strictly `false`. */
  method All<T>(s: seq<T>, pred: Arg<T -> JsVal>) returns (r: Result<bool>)
    ensures r == AllOf(s, pred)
  {
    if !pred.Truthy() {
      return Err(Thrown(INVALID_PREDICATE));
    }
    var i := 0;
    while i < |s|
      invariant 0 <= i <= |s|
      invariant !pred.Fn? ==> i == 0
      invariant pred.Fn? ==> forall j :: 0 <= j < i ==> pred.f(s[j]) != Bool(false)
    {
      if !pred.Fn? {
        return Err(NotCallable);
      }
      if pred.f(s[i]) == Bool(false) {
        return Ok(false);
      }
      i := i + 1;
    }
    return Ok(true);
  }

  // ---------------------------------------------------------------------
  // any
  // ---------------------------------------------------------------------

  /** What `any` returns: with a falsy pred, whether the sequence is
      non-empty; with a function, whether some element's result is
      exactly `true`; a truthy non-function fails when it is first called. */
  function AnyOf<T>(s: seq<T>, pred: Arg<T -> JsVal>): Result<bool> {
    match pred
    case Fn(p) => Ok(exists i :: 0 <= i < |s| && p(s[i]) == Bool(true))
    case _ =>
      if !pred.Truthy() then Ok(|s| > 0)
      else if |s| == 0 then Ok(false)
      else Err(NotCallable)
  }

  /** The scan of `any`: stops at the first element whose result is
      strictly `true`. */
  method Any<T>(s: seq<T>, pred: Arg<T -> JsVal>) returns (r: Result<bool>)
    ensures r == AnyOf(s, pred)
  {
    if !pred.Truthy() {
      return Ok(|s| > 0);
    }
    var i := 0;
    while i < |s|
      invariant 0 <= i <= |s|
      invariant !pred.Fn? ==> i == 0
      invariant pred.Fn? ==> forall j :: 0 <= j < i ==> pred.f(s[j]) != Bool(true)
    {
      if !pred.Fn? {
        return Err(NotCallable);
      }
      if pred.f(s[i]) == Bool(true) {
        return Ok(true);
      }
      i := i + 1;
    }
    return Ok(false);
  }

  // ---------------------------------------------------------------------
  // contains
  // ---------------------------------------------------------------------

  /** What `contains` returns. The value is checked first, then the
      comparer; with no comparer, the run time's loose equality `==`
      (here the parameter `looseEq`) is used. The comparer is called with
      the element first and the sought value second, and its result is
      tested for truthiness. */
  function ContainsOf<T>(s: seq<T>, value: Maybe<T>, comparer: Arg<(T, T) -> JsVal>,
                         looseEq: (T, T) -> bool): Result<bool> {
    match value
    case Undefined => Err(Thrown(EXPECTED_VALUE))
    case Defined(v) =>
      match comparer
      case Missing => Ok(exists i :: 0 <= i < |s| && looseEq(s[i], v))
      case NotFunction(_) => Err(Thrown(INVALID_COMPARER))
      case Fn(c) => Ok(exists i :: 0 <= i < |s| && Truthy(c(s[i], v)))
  }

  /** The argument checks and the scan of `contains`. */
  method Contains<T>(s: seq<T>, value: Maybe<T>, comparer: Arg<(T, T) -> JsVal>,
                     looseEq: (T, T) -> bool) returns (r: Result<bool>)
    ensures r == ContainsOf(s, value, comparer, looseEq)
  {
    if value.Undefined? {
      return Err(Thrown(EXPECTED_VALUE));
    }
    var c: (T, T) -> JsVal;
    if comparer.Missing? {
      c := (x, y) => Bool(looseEq(x, y));
    } else if comparer.NotFunction? {
      return Err(Thrown(INVALID_COMPARER));
    } else {
      c := comparer.f;
    }
    var v := value.v;
    var i := 0;
    while i < |s|
      invariant 0 <= i <= |s|
      invariant forall j :: 0 <= j < i ==> !Truthy(c(s[j], v))
    {
      if Truthy(c(s[i], v)) {
        return Ok(true);
      }
      i := i + 1;
    }
    return Ok(false);
  }

  // ---------------------------------------------------------------------
  // count
  // ---------------------------------------------------------------------

  /** `Array.prototype.filter`: the elements, in order, for which the
      callback's result is truthy. The callback receives the element and
      its index. */
  function Filter<T>(s: seq<T>, p: (T, nat) -> JsVal): (r: seq<T>)
    ensures |r| <= |s|
    decreases |s|
  {
    if |s| == 0 then []
    else
      var n := |s| - 1;
      Filter(s[..n], p) + (if Truthy(p(s[n], n)) then [s[n]] else [])
  }

  /** Filtering never keeps an element more often than it occurs. */
  lemma {:induction false} FilterIsSubMultiset<T>(s: seq<T>, p: (T, nat) -> JsVal)
    ensures multiset(Filter(s, p)) <= multiset(s)
    decreases |s|
  {
    if |s| > 0 {
      var n := |s| - 1;
      FilterIsSubMultiset(s[..n], p);
      assert s == s[..n] + [s[n]];
    }
  }

  /** Filtering keeps only elements of its input. */
  lemma FilterKeepsOnlyInputElements<T>(s: seq<T>, p: (T, nat) -> JsVal)
    ensures forall x :: x in Filter(s, p) ==> x in s
  {
    FilterIsSubMultiset(s, p);
    forall x | x in Filter(s, p)
      ensures x in s
    {
      assert x in multiset(Filter(s, p));
    }
  }

  /** The indices whose element the callback accepts. */
  ghost function Passing<T>(s: seq<T>, p: (T, nat) -> JsVal): set<nat> {
    set i: nat | i < |s| && Truthy(p(s[i], i))
  }

  /** Filtering keeps exactly one element per accepted index. */
  lemma {:induction false} FilterCountsPassing<T>(s: seq<T>, p: (T, nat) -> JsVal)
    ensures |Filter(s, p)| == |Passing(s, p)|
    decreases |s|
  {
    if |s| == 0 {
      assert Passing(s, p) == {};
    } else {
      var n := |s| - 1;
      FilterCountsPassing(s[..n], p);
      var before := Passing(s[..n], p);
      var rest: set<nat> := if Truthy(p(s[n], n)) then {n} else {};
      forall i: nat | i < |s|
        ensures i in Passing(s, p) <==> i in before + rest
      {
        if i < n {
          assert s[..n][i] == s[i];
        }
      }
      assert Passing(s, p) == before + rest;
      assert n !in before;
    }
  }

  /** `count`: the length when the predicate is left out, an error when it
      is given but is not a function (null included), otherwise the number
      of elements whose predicate result is truthy. */
  function Count<T>(s: seq<T>, pred: Arg<(T, nat) -> JsVal>): (r: Result<nat>)
    ensures pred.Missing? ==> r == Ok(|s|)
    ensures pred.NotFunction? ==> r == Err(Thrown(INVALID_PREDICATE))
    ensures pred.Fn? ==> r.Ok? && r.value <= |s| && r.value == |Passing(s, pred.f)|
  {
    match pred
    case Missing => Ok(|s|)
    case NotFunction(_) => Err(Thrown(INVALID_PREDICATE))
    case Fn(p) =>
      FilterCountsPassing(s, p);
      Ok(|Filter(s, p)|)
  }

  // ---------------------------------------------------------------------
  // select
  // ---------------------------------------------------------------------

  /** `Array.prototype.map`: the selector applied to each element and its
      index, in order. */
  function Map<T, R>(s: seq<T>, f: (T, nat) -> R): (r: seq<R>)
    ensures |r| == |s|
    ensures forall i :: 0 <= i < |s| ==> r[i] == f(s[i], i)
    decreases |s|
  {
    if |s| == 0 then []
    else
      var n := |s| - 1;
      Map(s[..n], f) + [f(s[n], n)]
  }

  /** `select` is `map` without any check of its own: a selector that is
      not callable, even on an empty array, ends in the run time's
      TypeError. */
  function Select<T, R>(s: seq<T>, selector: Arg<(T, nat) -> R>): (r: Result<seq<R>>)
    ensures !selector.Fn? <==> r == Err(NotCallable)
    ensures selector.Fn? ==> r.Ok? && |r.value| == |s|
    ensures selector.Fn? ==> forall i :: 0 <= i < |s| ==> r.value[i] == selector.f(s[i], i)
  {
    match selector
    case Fn(f) => Ok(Map(s, f))
    case _ => Err(NotCallable)
  }

  // ---------------------------------------------------------------------
  // average
  // ---------------------------------------------------------------------

  /** `reduce((x, y) => x + selector(y))` continued from accumulator `acc`
      over `s`, left to right. */
  function SumFrom<T>(acc: int, s: seq<T>, selector: T -> int): int
    decreases |s|
  {
    if |s| == 0 then acc else SumFrom(acc + selector(s[0]), s[1..], selector)
  }

  /** The total of the selected values, adding elements from the right: a
      reference definition for the left fold of `reduce`. */
  function Total<T>(s: seq<T>, selector: T -> int): int
    decreases |s|
  {
    if |s| == 0 then 0 else Total(s[..|s| - 1], selector) + selector(s[|s| - 1])
  }

  /** Folding from the left with any starting accumulator adds the total. */
  lemma {:induction false} SumFromIsTotal<T>(acc: int, s: seq<T>, selector: T -> int)
    ensures SumFrom(acc, s, selector) == acc + Total(s, selector)
    decreases |s|
  {
    if |s| > 0 {
      SumFromIsTotal(acc + selector(s[0]), s[1..], selector);
      TotalOfCons(s, selector);
    }
  }

  /** The total splits off its first element. */
  lemma {:induction false} TotalOfCons<T>(s: seq<T>, selector: T -> int)
    requires |s| > 0
    ensures Total(s, selector) == selector(s[0]) + Total(s[1..], selector)
    decreases |s|
  {
    if |s| > 1 {
      var n := |s| - 1;
      TotalOfCons(s[..n], selector);
      assert s[..n][1..] == s[1..][..n - 1];
      assert s[..n][0] == s[0];
    }
  }

  /** The fraction `average` divides: numerator and denominator. */
  datatype Mean = Mean(sum: int, count: nat)

  /** `average`: an error unless the selector is a function; otherwise the
      fold of `[0].concat(this)` over the selected values, over the
      length. */
  function Average<T>(s: seq<T>, selector: Arg<T -> int>): (r: Result<Mean>)
    ensures !selector.Fn? <==> r == Err(Thrown(INVALID_SELECTOR))
    ensures selector.Fn? ==> r == Ok(Mean(Total(s, selector.f), |s|))
  {
    match selector
    case Fn(f) =>
      SumFromIsTotal(0, s, f);
      Ok(Mean(SumFrom(0, s, f), |s|))
    case _ => Err(Thrown(INVALID_SELECTOR))
  }
}
