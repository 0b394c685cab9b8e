/** Least-recently-used eviction: which entries an eviction may take. Both caches share it. */
module Lru {
  /** No two entries were last used at the same instant, and none after `clock`. */
  predicate Stamped<K>(stamps: map<K, nat>, clock: nat) {
    && (forall k :: k in stamps ==> stamps[k] <= clock)
    && (forall j, k :: j in stamps && k in stamps && stamps[j] == stamps[k] ==> j == k)
  }

  /** `evicted` are candidates, all older than every candidate that stays. */
  predicate Cut<K>(stamps: map<K, nat>, candidates: set<K>, evicted: set<K>)
    requires candidates <= stamps.Keys
  {
    && evicted <= candidates
    && forall e, k :: e in evicted && k in candidates && k !in evicted ==> stamps[e] < stamps[k]
  }

  lemma StampedAnew<K>(stamps: map<K, nat>, clock: nat, k: K)
    requires Stamped(stamps, clock)
    ensures Stamped(stamps[k := clock + 1], clock + 1)
  {
  }

  // Of two cuts one contains the other, so the number of evicted entries determines them.
  lemma CutsAreNested<K>(stamps: map<K, nat>, candidates: set<K>, a: set<K>, b: set<K>)
    requires candidates <= stamps.Keys && Cut(stamps, candidates, a) && Cut(stamps, candidates, b)
    ensures a <= b || b <= a
    ensures |a| == |b| ==> a == b
  {
    if a <= b {
      assert b == a + (b - a);
    } else {
      var x :| x in a && x !in b;
      assert b <= a;
      assert a == b + (a - b);
    }
  }

  // Once the most recent candidate is evicted, all of them are.
  lemma NewestGoesLast<K>(stamps: map<K, nat>, candidates: set<K>, evicted: set<K>, newest: K)
    requires candidates <= stamps.Keys && Cut(stamps, candidates, evicted) && newest in evicted
    requires forall k :: k in candidates && k != newest ==> stamps[k] < stamps[newest]
    ensures evicted == candidates
  {
    assert forall k :: k in candidates && k !in evicted ==> stamps[newest] < stamps[k];
  }

  lemma CutExtends<K>(stamps: map<K, nat>, candidates: set<K>, evicted: set<K>, oldest: K, clock: nat)
    requires candidates <= stamps.Keys && Stamped(stamps, clock) && Cut(stamps, candidates, evicted)
    requires oldest in candidates - evicted && forall k :: k in candidates - evicted ==> stamps[oldest] <= stamps[k]
    ensures Cut(stamps, candidates, evicted + {oldest})
    ensures forall e :: e in evicted ==> stamps[e] < stamps[oldest]
  {
  }

  /** The least recently used of some entries. */
  method Oldest<K>(stamps: map<K, nat>, candidates: set<K>) returns (oldest: K)
    requires candidates <= stamps.Keys && candidates != {}
    ensures oldest in candidates && forall k :: k in candidates ==> stamps[oldest] <= stamps[k]
  {
    oldest :| oldest in candidates;
    var left := candidates - {oldest};
    while left != {}
      invariant left <= candidates && oldest in candidates
      invariant forall k :: k in candidates - left ==> stamps[oldest] <= stamps[k]
      decreases |left|
    {
      var k :| k in left;
      if stamps[k] < stamps[oldest] { oldest := k; }
      left := left - {k};
    }
  }
}
