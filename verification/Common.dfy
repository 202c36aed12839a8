/** Small types shared by every component. */
module Common {

  datatype Option<+T> = None | Some(value: T)

  datatype Result<+T, +E> = Ok(value: T) | Err(error: E)

  /** The truthiness test on an optional string. */
  predicate Given(s: Option<string>) {
    s.Some? && s.value != ""
  }

  function Max(a: int, b: int): int {
    if a > b then a else b
  }

  function Min(a: int, b: int): int {
    if a < b then a else b
  }

  /** The cardinality of a union never exceeds the sum of the cardinalities. */
  lemma UnionSize<T>(a: set<T>, b: set<T>)
    ensures |a + b| <= |a| + |b|
  {
    assert a + b == a + (b - a);
    assert |a + (b - a)| == |a| + |b - a|;
    SubsetSize(b - a, b);
  }

  lemma SubsetSize<T>(a: set<T>, b: set<T>)
    requires a <= b
    ensures |a| <= |b|
  {
    assert b == a + (b - a);
    assert |b| == |a| + |b - a|;
  }

  lemma OnlyOne<T>(a: set<T>, x: T, y: T)
    requires |a| <= 1 && x in a && y in a
    ensures x == y
  {
    SubsetSize({x, y}, a);
  }

  /** The numbers below `k`. */
  function Below(k: nat): set<nat> {
    if k == 0 then {} else Below(k - 1) + {k - 1}
  }

  lemma {:induction false} BelowCount(k: nat)
    ensures |Below(k)| == k && forall v: nat :: v in Below(k) <==> v < k
  {
    if k > 0 {
      BelowCount(k - 1);
    }
  }

  lemma {:induction false} FreshNumber(used: set<nat>) returns (n: nat)
    ensures forall u :: u in used ==> u < n
    decreases used
  {
    n := 0;
    if used != {} {
      var u :| u in used;
      n := FreshNumber(used - {u});
      assert forall v :: v in used ==> v == u || v in used - {u};
      n := if u < n then n else u + 1;
    }
  }
}
