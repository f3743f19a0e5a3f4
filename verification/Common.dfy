/** Result types, sizes of finite sets and sums over finite maps, shared by the models. */
module Common {

  datatype Option<+T> = None | Some(value: T)

  datatype Result<+T, +E> = Ok(value: T) | Err(error: E)

  lemma SubsetSize<T>(a: set<T>, b: set<T>)
    requires a <= b
    ensures |a| <= |b| && (|a| == |b| ==> a == b)
  {
    assert b == a + (b - a);
  }

  /** The sum of the numbers in a map. */
  ghost function Total(m: map<nat, nat>): nat
    decreases |m|
  {
    if m == map[] then 0
    else
      var k :| k in m;
      m[k] + Total(m - {k})
  }

  lemma {:induction false} TotalSplit(m: map<nat, nat>, k: nat)
    requires k in m
    ensures Total(m) == m[k] + Total(m - {k})
    decreases |m|
  {
    var j :| j in m && Total(m) == m[j] + Total(m - {j});
    if j != k {
      TotalSplit(m - {j}, k);
      TotalSplit(m - {k}, j);
      assert m - {j} - {k} == m - {k} - {j};
    }
  }

  /** A sum falls when one of its numbers does. */
  lemma TotalFalls(m: map<nat, nat>, n: map<nat, nat>, k: nat)
    requires k in m && k in n && m - {k} == n - {k} && n[k] < m[k]
    ensures Total(n) < Total(m)
  {
    TotalSplit(m, k);
    TotalSplit(n, k);
  }
}
