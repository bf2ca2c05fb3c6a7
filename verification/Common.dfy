/** Small datatypes and the finite-map sum shared by the models. */
module Common {
  datatype Option<+T> = None | Some(value: T)

  datatype Result<+T, +E> = Ok(value: T) | Err(error: E)

  const TWO_64: int := 0x1_0000_0000_0000_0000

  type U64 = x: int | 0 <= x < TWO_64

  /** Rust's wrapping u64 arithmetic, as in a release build. */
  function Wrap(x: int): U64 {
    x % TWO_64
  }

  lemma WrapIs(x: int, q: int, r: U64)
    requires x == q * TWO_64 + r
    ensures Wrap(x) == r
  {
  }

  /** The sum of the values of a finite map: SQL's COALESCE(SUM(column), 0). */
  ghost function Sum(w: map<nat, nat>): nat
    decreases |w|
  {
    if w == map[] then 0
    else
      var k :| k in w;
      w[k] + Sum(w - {k})
  }

  /** The value of Sum does not depend on the order in which rows are visited. */
  lemma {:induction false} SumSplit(w: map<nat, nat>, k: nat)
    requires k in w
    ensures Sum(w) == w[k] + Sum(w - {k})
    decreases |w|
  {
    var j :| j in w && Sum(w) == w[j] + Sum(w - {j});
    if j != k {
      SumSplit(w - {j}, k);
      SumSplit(w - {k}, j);
      assert w - {j} - {k} == w - {k} - {j};
    }
  }

  lemma SumUpdate(w: map<nat, nat>, k: nat, v: nat)
    ensures Sum(w[k := v]) == v + Sum(w - {k})
  {
    SumSplit(w[k := v], k);
    assert w[k := v] - {k} == w - {k};
  }

  /** Dropping rows and lowering values never raises a sum. */
  lemma {:induction false} SumMonotone(w: map<nat, nat>, w': map<nat, nat>)
    requires w.Keys <= w'.Keys
    requires forall k :: k in w ==> w[k] <= w'[k]
    ensures Sum(w) <= Sum(w')
    decreases |w'|
  {
    if w' != map[] {
      var k :| k in w';
      SumSplit(w', k);
      if k in w {
        SumSplit(w, k);
      } else {
        assert w - {k} == w;
      }
      SumMonotone(w - {k}, w' - {k});
    } else {
      assert w == map[];
    }
  }

  lemma OneMore(n: nat, bound: nat)
    ensures (n + 1) * bound == n * bound + bound
  {
  }

  lemma {:induction false} SumBounded(w: map<nat, nat>, bound: nat)
    requires forall k :: k in w ==> w[k] <= bound
    ensures Sum(w) <= |w| * bound
    decreases |w|
  {
    if w != map[] {
      var k :| k in w;
      SumSplit(w, k);
      var rest := w - {k};
      SumBounded(rest, bound);
      assert |rest| == |w| - 1 by {
        assert rest.Keys == w.Keys - {k};
      }
      OneMore(|rest|, bound);
    }
  }
}
