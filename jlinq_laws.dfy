/** Laws relating the jLinq operators to one another and to independent
    reference definitions. */
module JLinqLaws {
  import opened JsRuntime
  import opened JLinq

  /** The predicate that accepts exactly what `p` rejects. */
  function Negated<T>(p: (T, nat) -> JsVal): (T, nat) -> JsVal {
    (x: T, i: nat) => Bool(!Truthy(p(x, i)))
  }

  // ---------------------------------------------------------------------
  // filter, and through it count
  // ---------------------------------------------------------------------

  /** Filtering keeps every element exactly when the callback accepts every
      element. */
  lemma {:induction false} FilterKeepsAll<T>(s: seq<T>, p: (T, nat) -> JsVal)
    ensures |Filter(s, p)| == |s| <==> forall i :: 0 <= i < |s| ==> Truthy(p(s[i], i))
    decreases |s|
  {
    if |s| > 0 {
      var n := |s| - 1;
      var init := s[..n];
      FilterKeepsAll(init, p);
      assert forall i :: 0 <= i < n ==> init[i] == s[i];
    }
  }

  /** When the callback accepts every element, filtering returns an equal
      copy. */
  lemma {:induction false} FilterAcceptingAllIsCopy<T>(s: seq<T>, p: (T, nat) -> JsVal)
    requires forall i :: 0 <= i < |s| ==> Truthy(p(s[i], i))
    ensures Filter(s, p) == s
    decreases |s|
  {
    if |s| > 0 {
      var n := |s| - 1;
      var init := s[..n];
      assert forall i :: 0 <= i < n ==> init[i] == s[i];
      FilterAcceptingAllIsCopy(init, p);
      assert s == init + [s[n]];
    }
  }

  /** Filtering keeps nothing exactly when the callback rejects every
      element. */
  lemma {:induction false} FilterKeepsNone<T>(s: seq<T>, p: (T, nat) -> JsVal)
    ensures |Filter(s, p)| == 0 <==> forall i :: 0 <= i < |s| ==> !Truthy(p(s[i], i))
    decreases |s|
  {
    if |s| > 0 {
      var n := |s| - 1;
      var init := s[..n];
      FilterKeepsNone(init, p);
      var none := forall i :: 0 <= i < |s| ==> !Truthy(p(s[i], i));
      var noneInit := forall i :: 0 <= i < n ==> !Truthy(p(init[i], i));
      assert none <==> noneInit && !Truthy(p(s[n], n)) by {
        assert forall i :: 0 <= i < n ==> init[i] == s[i];
      }
    }
  }

  /** A predicate and its negation split a sequence between them. */
  lemma {:induction false} FilterComplement<T>(s: seq<T>, p: (T, nat) -> JsVal)
    ensures |Filter(s, p)| + |Filter(s, Negated(p))| == |s|
    decreases |s|
  {
    if |s| > 0 {
      FilterComplement(s[..|s| - 1], p);
    }
  }

  /** `count()` and `count(() => true)` agree. */
  lemma CountWithoutPredicateCountsAll<T>(s: seq<T>)
    ensures Count(s, Missing) == Count(s, Fn((x: T, i: nat) => Bool(true)))
  {
    FilterAcceptingAllIsCopy(s, (x: T, i: nat) => Bool(true));
  }

  /** Every element is counted either by a predicate or by its negation. */
  lemma CountComplement<T>(s: seq<T>, p: (T, nat) -> JsVal)
    ensures Count(s, Fn(p)).value + Count(s, Fn(Negated(p))).value == |s|
  {
    FilterComplement(s, p);
  }

  // ---------------------------------------------------------------------
  // all and any against count: strict tests versus truthiness
  // ---------------------------------------------------------------------

  /** For a predicate that only returns booleans, `all` holds exactly when
      `count` with the same predicate counts every element. */
  lemma AllAgreesWithCount<T>(s: seq<T>, p: T -> JsVal)
    requires forall i :: 0 <= i < |s| ==> p(s[i]).Bool?
    ensures AllOf(s, Fn(p)) == Ok(true) <==> Count(s, Fn((x: T, i: nat) => p(x))) == Ok(|s|)
  {
    FilterKeepsAll(s, (x: T, i: nat) => p(x));
  }

  /** For a predicate that only returns booleans, `any` holds exactly when
      `count` with the same predicate counts at least one element. */
  lemma AnyAgreesWithCount<T>(s: seq<T>, p: T -> JsVal)
    requires forall i :: 0 <= i < |s| ==> p(s[i]).Bool?
    ensures AnyOf(s, Fn(p)) == Ok(true) <==> Count(s, Fn((x: T, i: nat) => p(x))).value > 0
  {
    FilterKeepsNone(s, (x: T, i: nat) => p(x));
  }

  /** Non-boolean results separate the strict tests from truthiness. When
      every result is a non-boolean, `all` holds and `any` does not,
      whatever their truthiness; `count` still counts the truthy ones, so
      falsy non-booleans (0, "", null) count nothing and truthy ones
      (1, "a", {}) count every element. */
  lemma StrictTestsIgnoreNonBooleans<T>(s: seq<T>, p: T -> JsVal)
    requires forall i :: 0 <= i < |s| ==> p(s[i]).Other?
    ensures AllOf(s, Fn(p)) == Ok(true)
    ensures AnyOf(s, Fn(p)) == Ok(false)
    ensures (forall i :: 0 <= i < |s| ==> !Truthy(p(s[i])))
            ==> Count(s, Fn((x: T, i: nat) => p(x))) == Ok(0)
    ensures (forall i :: 0 <= i < |s| ==> Truthy(p(s[i])))
            ==> Count(s, Fn((x: T, i: nat) => p(x))) == Ok(|s|)
  {
    FilterKeepsNone(s, (x: T, i: nat) => p(x));
    FilterKeepsAll(s, (x: T, i: nat) => p(x));
  }

  // ---------------------------------------------------------------------
  // contains
  // ---------------------------------------------------------------------

  /** Leaving the comparer out is the same as passing `(x, y) => x == y`. */
  lemma ContainsDefaultIsLooseEquality<T>(s: seq<T>, v: T, looseEq: (T, T) -> bool)
    ensures ContainsOf(s, Defined(v), Missing, looseEq)
         == ContainsOf(s, Defined(v), Fn((x: T, y: T) => Bool(looseEq(x, y))), looseEq)
  {
  }

  /** The comparer receives the element first and the sought value second:
      with `(x, y) => x < y`, `[1].contains(2, ...)` holds and
      `[2].contains(1, ...)` does not. */
  lemma ContainsPassesElementFirst(looseEq: (int, int) -> bool)
    ensures ContainsOf([1], Defined(2), Fn((x: int, y: int) => Bool(x < y)), looseEq) == Ok(true)
    ensures ContainsOf([2], Defined(1), Fn((x: int, y: int) => Bool(x < y)), looseEq) == Ok(false)
  {
    assert Truthy(((x: int, y: int) => Bool(x < y))([1][0], 2));
  }

  // ---------------------------------------------------------------------
  // select
  // ---------------------------------------------------------------------

  /** A selector that returns its element, such as `x => x`, makes
      `select` return an equal copy. */
  lemma SelectIdentity<T>(s: seq<T>, f: (T, nat) -> T)
    requires forall x, i :: f(x, i) == x
    ensures Select(s, Fn(f)) == Ok(s)
  {
    var r := Select(s, Fn(f)).value;
    assert |r| == |s|;
    assert forall i :: 0 <= i < |s| ==> r[i] == s[i];
    assert r == s;
  }

  /** Two selects in a row equal one select of the composed selector `h`,
      each stage seeing the same index. */
  lemma SelectCompose<T, U, R>(s: seq<T>, f: (T, nat) -> U, g: (U, nat) -> R, h: (T, nat) -> R)
    requires forall x, i :: h(x, i) == g(f(x, i), i)
    ensures Select(Select(s, Fn(f)).value, Fn(g)) == Select(s, Fn(h))
  {
    var staged := Select(Select(s, Fn(f)).value, Fn(g)).value;
    var fused := Select(s, Fn(h)).value;
    assert |staged| == |fused|;
    assert forall i :: 0 <= i < |s| ==> staged[i] == fused[i];
    assert staged == fused;
  }

  // ---------------------------------------------------------------------
  // average
  // ---------------------------------------------------------------------

  /** With a constant selector the sum is that constant times the length. */
  lemma {:induction false} TotalOfConstant<T>(s: seq<T>, f: T -> int, c: int)
    requires forall x :: f(x) == c
    ensures Total(s, f) == c * |s|
    decreases |s|
  {
    if |s| > 0 {
      TotalOfConstant(s[..|s| - 1], f, c);
    }
  }

  /** `average(x => 1)` divides the length by itself. */
  lemma AverageOfOnes<T>(s: seq<T>)
    ensures Average(s, Fn((x: T) => 1)) == Ok(Mean(|s|, |s|))
  {
    TotalOfConstant(s, (x: T) => 1, 1);
  }
}
