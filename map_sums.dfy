/**
 * Sums over the values of a map keyed by ticker, used to state the exchange's book-wide
 * quantities (cost basis of all open lots, mark-to-market portfolio value).
 */
module MapSums {

  /** The sum of the values of `m`. */
  ghost function Total(m: map<string, real>): real
    decreases m.Keys
  {
    if m == map[] then 0.0
    else
      var k :| k in m;
      m[k] + Total(m - {k})
  }

  /** Any key can be taken out first. */
  lemma {:induction false} TotalRemove(m: map<string, real>, k: string)
    requires k in m
    ensures Total(m) == m[k] + Total(m - {k})
    decreases m.Keys
  {
    var j :| j in m && Total(m) == m[j] + Total(m - {j});
    if j != k {
      TotalRemove(m - {j}, k);
      TotalRemove(m - {k}, j);
      assert (m - {j}) - {k} == (m - {k}) - {j};
    }
  }

  /** Setting one entry changes the total by the difference at that key. */
  lemma TotalUpdate(m: map<string, real>, k: string, v: real)
    ensures Total(m[k := v]) == Total(m) - (if k in m then m[k] else 0.0) + v
  {
    TotalRemove(m[k := v], k);
    assert m[k := v] - {k} == m - {k};
    if k in m {
      TotalRemove(m, k);
    } else {
      assert m - {k} == m;
    }
  }

  /** A map of zeros sums to zero. */
  lemma {:induction false} TotalZero(m: map<string, real>)
    requires forall k | k in m :: m[k] == 0.0
    ensures Total(m) == 0.0
    decreases m.Keys
  {
    if m != map[] {
      var k :| k in m;
      TotalRemove(m, k);
      TotalZero(m - {k});
    }
  }
}
