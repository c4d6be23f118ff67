/** Types and small facts shared by the models of the individual components. */
module Prelude {

  datatype Option<+T> = None | Some(value: T)

  datatype Result<+T, +E> = Ok(value: T) | Err(error: E)

  function Max0(x: int): nat {
    if x < 0 then 0 else x
  }

  lemma CardinalityPlusOne<T>(s: set<T>, t: set<T>, x: T)
    requires x !in s && t == s + {x}
    ensures |t| == |s| + 1
  {
  }

  lemma {:induction false} SubsetCardinality<T>(s: set<T>, t: set<T>)
    requires s <= t
    ensures |s| <= |t|
  {
    assert t == s + (t - s);
  }

  lemma QuotientBound(n: nat, d: int, total: int)
    requires d > 0 && n * d <= total
    ensures n <= total / d
  {
    var q := total / d;
    assert total < (q + 1) * d;
    if n >= q + 1 {
      ProductMonotone(q + 1, n, d);
    }
  }

  lemma ProductMonotone(m: nat, n: nat, q: nat)
    requires m <= n
    ensures m * q <= n * q
  {
    assert n * q == m * q + (n - m) * q;
  }
}
