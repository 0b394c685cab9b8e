/** Totals of the values of a finite map: the one notion of "sum over the contents" that every
    counter in the system is compared with. */
module MapTotals {

  ghost function Total<K>(m: map<K, nat>): nat
    decreases |m|
  {
    if m.Keys == {} then 0
    else
      var k :| k in m;
      m[k] + Total(m - {k})
  }

  // The choice made by `Total` does not matter: any key can be taken out first.
  lemma {:induction false} TotalWithout<K>(m: map<K, nat>, k: K)
    requires k in m
    ensures Total(m) == m[k] + Total(m - {k})
    decreases |m|
  {
    var c :| c in m && Total(m) == m[c] + Total(m - {c});
    if c != k {
      TotalWithout(m - {c}, k);
      TotalWithout(m - {k}, c);
      assert m - {c} - {k} == m - {k} - {c};
    }
  }

  lemma TotalRemoved<K>(m: map<K, nat>, k: K)
    ensures k in m ==> Total(m - {k}) == Total(m) - m[k]
    ensures k !in m ==> Total(m - {k}) == Total(m)
  {
    if k in m {
      TotalWithout(m, k);
    } else {
      assert m - {k} == m;
    }
  }

  lemma TotalUpdated<K>(m: map<K, nat>, k: K, v: nat)
    ensures Total(m[k := v]) == Total(m - {k}) + v
    ensures k !in m ==> Total(m[k := v]) == Total(m) + v
    ensures k in m ==> Total(m[k := v]) == Total(m) - m[k] + v
  {
    TotalWithout(m[k := v], k);
    assert m[k := v] - {k} == m - {k};
    TotalRemoved(m, k);
  }

  lemma TotalAtLeast<K>(m: map<K, nat>, k: K)
    requires k in m
    ensures m[k] <= Total(m)
  {
    TotalWithout(m, k);
  }

  // A value-wise injection of one map into another bounds its total.
  lemma {:induction false} TotalInjects<J, K>(small: map<J, nat>, big: map<K, nat>, into: map<J, K>)
    requires forall j :: j in small ==> j in into && into[j] in big && small[j] <= big[into[j]]
    requires forall i, j :: i in small && j in small && into[i] == into[j] ==> i == j
    ensures Total(small) <= Total(big)
    decreases |small|
  {
    if small.Keys != {} {
      var j :| j in small;
      TotalWithout(small, j);
      TotalWithout(big, into[j]);
      TotalInjects(small - {j}, big - {into[j]}, into);
    }
  }

  lemma OneMoreKey<K, V>(m: map<K, V>, k: K, v: V)
    requires k !in m
    ensures |m[k := v]| == |m| + 1
  {
  }

  lemma OneLessKey<K, V>(m: map<K, V>, k: K)
    requires k in m
    ensures |m - {k}| == |m| - 1
  {
    assert (m - {k}).Keys == m.Keys - {k};
    assert |(m - {k}).Keys| == |m - {k}| && |m.Keys| == |m|;
  }

  // Taking one more key out of what is left.
  lemma OneMoreGone<K, V>(before: map<K, V>, now: map<K, V>, k: K)
    requires now == before - (before.Keys - now.Keys) && k in now
    ensures before.Keys - (now - {k}).Keys == (before.Keys - now.Keys) + {k}
    ensures now - {k} == before - (before.Keys - (now - {k}).Keys)
  {
  }

  lemma OnlyThatKey<K, V>(m: map<K, V>, k: K, v: V)
    ensures (m - {k})[k := v] - {k} == m - {k}
    ensures k !in m ==> m - {k} == m
  {
  }
}
