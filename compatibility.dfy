/**
 * The `checkCompatibility` overloads the integration tests use to compare
 * an expected description with the one read back from the simulation.
 *
 * The overloads are templates: the element comparison of the optional,
 * vector and list overloads is whatever overload applies to the element
 * type, so it is passed here as the function `compat`.  An `EXPECT_EQ`
 * inside an overload records a test failure without changing the value
 * returned; the loop overloads report that record as `expectFailed`.
 */
module Compatibility {

  import opened Wrappers

  /** The plain overload: compatible iff equal. */
  function Plain<T(==)>(a: T, b: T): (r: bool)
    ensures r <==> a == b
  {
    a == b
  }

  /**
   * The `boost::optional` overload.  An absent expected value is
   * compatible with anything; a present one needs a present, compatible
   * actual value.
   */
  function OptionalCompat<T>(a: Option<T>, b: Option<T>, compat: (T, T) -> bool): (r: bool)
    ensures a.None? ==> r
    ensures a.Some? && b.None? ==> !r
    ensures a.Some? && b.Some? ==> (r <==> compat(a.value, b.value))
  {
    if a.None? && b.None? then true
    else if a.Some? && b.None? then false
    else if a.None? && b.Some? then true
    else compat(a.value, b.value)
  }

  /** Over plain values, the optional overload accepts exactly the equal pairs and those with nothing expected. */
  lemma OptionalPlainIsEqualityWhereExpected(a: Option<int>, b: Option<int>)
    ensures OptionalCompat(a, b, Plain) <==> (a.None? || a == b)
  {
  }

  /** The optional overload is not symmetric: nothing expected accepts a value, but not the other way round. */
  lemma OptionalNotSymmetric()
    ensures OptionalCompat(None, Some(0), Plain)
    ensures !OptionalCompat(Some(0), None, Plain)
  {
  }

  /** Every element of `a` is compatible with the element of `b` at the same index. */
  predicate Pointwise<T>(a: seq<T>, b: seq<T>, compat: (T, T) -> bool)
    requires |a| <= |b|
  {
    forall i | 0 <= i < |a| :: compat(a[i], b[i])
  }

  /**
   * The `vector` overload.  It walks the indices of `a`; when `b` is
   * shorter, `b.at(i)` throws `std::out_of_range`, reported as `None`.
   * Otherwise the result is the conjunction over `a`'s indices.
   */
  method VectorCompat<T>(a: seq<T>, b: seq<T>, compat: (T, T) -> bool)
    returns (result: Option<bool>, expectFailed: bool)
    ensures expectFailed <==> |a| != |b|
    ensures |b| < |a| ==> result.None?
    ensures |a| <= |b| ==> result == Some(Pointwise(a, b, compat))
  {
    expectFailed := |a| != |b|;
    var acc := true;
    for i := 0 to |a|
      invariant i <= |b|
      invariant acc <==> forall j | 0 <= j < i :: compat(a[j], b[j])
    {
      if i >= |b| {
        return None, expectFailed;
      }
      acc := acc && compat(a[i], b[i]);
    }
    result := Some(acc);
  }

  /**
   * The `std::list` overload.  When the sizes differ the loop is skipped
   * and only the expectation fails: the result is still `true`.
   */
  method ListCompat<T>(a: seq<T>, b: seq<T>, compat: (T, T) -> bool)
    returns (result: bool, expectFailed: bool)
    ensures expectFailed <==> |a| != |b|
    ensures |a| != |b| ==> result
    ensures |a| == |b| ==> (result <==> Pointwise(a, b, compat))
  {
    expectFailed := |a| != |b|;
    result := true;
    if |a| == |b| {
      for i := 0 to |a|
        invariant result <==> forall j | 0 <= j < i :: compat(a[j], b[j])
      {
        result := result && compat(a[i], b[i]);
      }
    }
  }

  /** For plain elements and equal lengths, pointwise compatibility is sequence equality. */
  lemma PointwisePlainIsEquality(a: seq<int>, b: seq<int>)
    requires |a| == |b|
    ensures Pointwise(a, b, Plain) <==> a == b
  {
    if Pointwise(a, b, Plain) {
      assert forall i | 0 <= i < |a| :: a[i] == b[i];
    }
  }

  /** The vector overload ignores whatever `b` holds beyond the length of `a`. */
  lemma PointwiseIgnoresTail<T>(a: seq<T>, b: seq<T>, extra: seq<T>, compat: (T, T) -> bool)
    requires |a| <= |b|
    ensures Pointwise(a, b + extra, compat) <==> Pointwise(a, b, compat)
  {
    assert forall i | 0 <= i < |a| :: (b + extra)[i] == b[i];
  }

  /** Pointwise compatibility is reflexive whenever the element comparison is. */
  lemma PointwiseReflexive<T>(a: seq<T>, compat: (T, T) -> bool)
    requires forall x: T :: compat(x, x)
    ensures Pointwise(a, a, compat)
  {
  }
}
