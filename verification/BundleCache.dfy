/** Content-addressed bundle bytes as one LRU bounded by bytes and entries
    (crates/hand-brain-aws/src/cache.rs:159-228). Operations run under the cache lock, one at a time. */
module BundleCaches {
  import opened Wrappers
  import opened RecordCodec
  import opened MapTotals
  import opened Lru

  const MAX_CACHED_BUNDLES: nat := 4096

  datatype Digest = Digest(hex: string)

  datatype Cached = Cached(content: Text, lastAccess: nat)

  datatype Bundles = Bundles(entries: map<Digest, Cached>, bytes: nat, clock: nat)

  datatype Limits = Limits(bytes: nat, entries: nat)

  datatype CacheError = BytesExhausted | EntriesExhausted

  function Sizes(entries: map<Digest, Cached>): map<Digest, nat> {
    map d | d in entries :: |entries[d].content|
  }

  function Stamps(entries: map<Digest, Cached>): map<Digest, nat> {
    map d | d in entries :: entries[d].lastAccess
  }

  /** The byte counter is the sum over the contents and every access has its own stamp. */
  ghost predicate Accounted(b: Bundles) {
    b.bytes == Total(Sizes(b.entries)) && Stamped(Stamps(b.entries), b.clock)
  }

  predicate Fits(b: Bundles, bytes: nat, entries: nat, limits: Limits) {
    b.bytes + bytes <= limits.bytes && |b.entries| + entries <= limits.entries
  }

  function Touched(b: Bundles, d: Digest): Bundles {
    b.(clock := b.clock + 1,
       entries := if d in b.entries then b.entries[d := b.entries[d].(lastAccess := b.clock + 1)] else b.entries)
  }

  function Inserted(b: Bundles, d: Digest, content: Text): Bundles {
    Bundles(b.entries[d := Cached(content, b.clock + 1)], b.bytes + |content|, b.clock + 1)
  }

  function Removed(b: Bundles, gone: set<Digest>): map<Digest, Cached> {
    b.entries - gone
  }

  /** Putting `last` back would not have fit. */
  predicate WasNeeded(before: Bundles, after: Bundles, last: Digest, bytes: nat, entries: nat, limits: Limits)
    requires last in before.entries
  {
    || after.bytes + |before.entries[last].content| + bytes > limits.bytes
    || |after.entries| + 1 + entries > limits.entries
  }

  predicate NewestOf(b: Bundles, gone: set<Digest>, last: Digest)
    requires gone <= b.entries.Keys && last in gone
  {
    forall d :: d in gone ==> b.entries[d].lastAccess <= b.entries[last].lastAccess
  }

  /** What an eviction does. Of the entries that are neither protected nor borrowed, it takes exactly the least
      recently used ones, only as many as needed; it fails only when all of them together were not enough. */
  ghost predicate Evicts(before: Bundles, after: Bundles, bytes: nat, entries: nat, spared: set<Digest>, limits: Limits,
                         refusal: Option<CacheError>)
  {
    var candidates, gone := before.entries.Keys - spared, before.entries.Keys - after.entries.Keys;
    && after.entries == Removed(before, gone) && after.clock == before.clock && Accounted(after)
    && Cut(Stamps(before.entries), candidates, gone)
    && (refusal.None? ==> Fits(after, bytes, entries, limits))
    && (refusal.None? && gone != {} ==>
          exists last :: last in gone && NewestOf(before, gone, last) && WasNeeded(before, after, last, bytes, entries, limits))
    && (refusal.Some? ==>
          && gone == candidates && !Fits(after, bytes, entries, limits)
          && refusal.value == if after.bytes + bytes <= limits.bytes then EntriesExhausted else BytesExhausted)
  }

  /** Every other entry was used before this one. */
  predicate MostRecent(entries: map<Digest, Cached>, d: Digest)
    requires d in entries
  {
    forall e :: e in entries && e != d ==> entries[e].lastAccess < entries[d].lastAccess
  }

  /** A hit gives the entry this stamp, above all others; nothing else about any entry changes. */
  predicate UsedAt(before: map<Digest, Cached>, after: map<Digest, Cached>, d: Digest, stamp: nat) {
    && after.Keys == before.Keys
    && (forall e :: e in before && e != d ==> after[e] == before[e])
    && (d in before ==> after[d] == Cached(before[d].content, stamp) && MostRecent(after, d))
  }

  // The entry used last is the last one an eviction takes: it goes only when nothing else that is not spared stays.
  lemma MostRecentGoesLast(before: Bundles, after: Bundles, bytes: nat, entries: nat, spared: set<Digest>, limits: Limits,
                           refusal: Option<CacheError>, d: Digest)
    requires Evicts(before, after, bytes, entries, spared, limits, refusal)
    requires d in before.entries && MostRecent(before.entries, d) && d !in after.entries
    ensures after.entries.Keys <= spared
  {
    hide Accounted;
    var candidates := before.entries.Keys - spared;
    NewestGoesLast(Stamps(before.entries), candidates, before.entries.Keys - after.entries.Keys, d);
    hide Cut, Stamps;
    assert before.entries.Keys - after.entries.Keys == candidates;
  }

  /** These bundles were used since `before`, and no other entry changed or appeared. */
  predicate Freshened(before: Bundles, now: Bundles, done: set<Digest>) {
    && before.clock <= now.clock
    && (forall d :: d in done ==> d in now.entries && before.clock < now.entries[d].lastAccess)
    && (forall e :: e in now.entries && e !in done ==> e in before.entries && now.entries[e] == before.entries[e])
  }

  // What was freshened outlasts everything else in every later eviction order.
  lemma FreshenedOutranks(before: Bundles, now: Bundles, done: set<Digest>, d: Digest, e: Digest)
    requires Accounted(before) && Freshened(before, now, done) && d in done && e in now.entries && e !in done
    ensures now.entries[e].lastAccess < now.entries[d].lastAccess
  {
    assert Stamps(before.entries)[e] <= before.clock;
  }

  lemma FreshenUsed(before: Bundles, now: Bundles, next: Bundles, done: set<Digest>, d: Digest)
    requires Freshened(before, now, done) && now.clock < next.clock && UsedAt(now.entries, next.entries, d, next.clock)
    ensures Freshened(before, next, if d in now.entries then done + {d} else done)
  {
  }

  lemma FreshenInserted(before: Bundles, now: Bundles, next: Bundles, done: set<Digest>, d: Digest, content: Text)
    requires Freshened(before, now, done) && now.clock < next.clock && next.entries == now.entries[d := Cached(content, next.clock)]
    ensures Freshened(before, next, done + {d})
  {
  }

  lemma StartFreshening(b: Bundles)
    ensures Freshened(b, b, {})
  {
  }

  // ---- Accounts under each operation ----

  lemma TouchedIsUsed(b: Bundles, d: Digest)
    requires Accounted(b)
    ensures UsedAt(b.entries, Touched(b, d).entries, d, b.clock + 1)
  {
    if d in b.entries { AboveTheClock(b, d, b.entries[d].content); }
  }

  lemma AboveTheClock(b: Bundles, d: Digest, content: Text)
    requires Accounted(b)
    ensures MostRecent(b.entries[d := Cached(content, b.clock + 1)], d)
  {
    forall e | e in b.entries ensures b.entries[e].lastAccess <= b.clock {
      assert Stamps(b.entries)[e] <= b.clock;
    }
  }

  lemma TouchedAccounts(b: Bundles, d: Digest)
    requires Accounted(b)
    ensures Accounted(Touched(b, d)) && Touched(b, d).entries.Keys == b.entries.Keys
    ensures Sizes(Touched(b, d).entries) == Sizes(b.entries)
  {
    assert Sizes(Touched(b, d).entries) == Sizes(b.entries);
  }

  lemma InsertedAccounts(b: Bundles, d: Digest, content: Text)
    requires Accounted(b) && d !in b.entries
    ensures Accounted(Inserted(b, d, content))
    ensures |Inserted(b, d, content).entries| == |b.entries| + 1
  {
    hide Stamped, Sizes, Stamps;
    InsertedMaps(b, d, content);
    TotalUpdated(Sizes(b.entries), d, |content|);
    StampedAnew(Stamps(b.entries), b.clock, d);
    OneMoreKey(b.entries, d, Cached(content, b.clock + 1));
  }

  lemma InsertedMaps(b: Bundles, d: Digest, content: Text)
    requires d !in b.entries
    ensures d !in Sizes(b.entries)
    ensures Sizes(Inserted(b, d, content).entries) == Sizes(b.entries)[d := |content|]
    ensures Stamps(Inserted(b, d, content).entries) == Stamps(b.entries)[d := b.clock + 1]
  {
  }

  lemma RemovedAccounts(b: Bundles, d: Digest)
    requires Accounted(b) && d in b.entries
    ensures |b.entries[d].content| <= b.bytes
    ensures Accounted(Bundles(b.entries - {d}, b.bytes - |b.entries[d].content|, b.clock))
    ensures |b.entries - {d}| == |b.entries| - 1
  {
    TotalRemoved(Sizes(b.entries), d);
    TotalAtLeast(Sizes(b.entries), d);
    assert Sizes(b.entries - {d}) == Sizes(b.entries) - {d};
    OneLessKey(b.entries, d);
  }

  // An eviction never drops a spared entry and never changes one that stays.
  lemma EvictionSpares(before: Bundles, after: Bundles, bytes: nat, entries: nat, spared: set<Digest>, limits: Limits,
                       refusal: Option<CacheError>, d: Digest)
    requires Evicts(before, after, bytes, entries, spared, limits, refusal) && d in before.entries
    ensures d in spared ==> d in after.entries
    ensures d in after.entries ==> after.entries[d] == before.entries[d]
  {
  }

  // What already fits is not evicted from at all.
  lemma NoNeedlessEviction(before: Bundles, after: Bundles, bytes: nat, entries: nat, spared: set<Digest>, limits: Limits,
                           refusal: Option<CacheError>)
    requires Accounted(before) && Evicts(before, after, bytes, entries, spared, limits, refusal) && Fits(before, bytes, entries, limits)
    ensures refusal.None? && after == before
  {
    hide Accounted, Cut;
    var gone := before.entries.Keys - after.entries.Keys;
    EvictionShrinks(before, after, bytes, entries, spared, limits, refusal);
    SmallerTotals(before, after);
    if gone != {} {
      SomethingNeeded(before, after, bytes, entries, spared, limits, refusal);
    }
    assert gone == {};
    assert after.entries == before.entries;
    SameTotals(before, after);
  }

  lemma EvictionShrinks(before: Bundles, after: Bundles, bytes: nat, entries: nat, spared: set<Digest>, limits: Limits,
                        refusal: Option<CacheError>)
    requires Evicts(before, after, bytes, entries, spared, limits, refusal)
    ensures Accounted(after) && after.entries.Keys <= before.entries.Keys
    ensures forall d :: d in after.entries ==> after.entries[d] == before.entries[d]
  {
    hide Accounted, Cut;
  }

  lemma SomethingNeeded(before: Bundles, after: Bundles, bytes: nat, entries: nat, spared: set<Digest>, limits: Limits,
                        refusal: Option<CacheError>)
    requires Accounted(before) && Evicts(before, after, bytes, entries, spared, limits, refusal)
    requires before.entries.Keys - after.entries.Keys != {}
    ensures !Fits(before, bytes, entries, limits)
  {
    hide Accounted, Cut;
    EvictionShrinks(before, after, bytes, entries, spared, limits, refusal);
    SmallerTotals(before, after);
    if refusal.None? {
      var gone := before.entries.Keys - after.entries.Keys;
      hide NewestOf;
      var last :| last in gone && NewestOf(before, gone, last) && WasNeeded(before, after, last, bytes, entries, limits);
      hide Evicts;
      SmallerByOne(before, after, last);
    }
  }

  lemma SameTotals(before: Bundles, after: Bundles)
    requires Accounted(before) && Accounted(after) && after.entries == before.entries
    ensures after.bytes == before.bytes
  {
  }

  lemma SmallerTotals(before: Bundles, after: Bundles)
    requires Accounted(before) && Accounted(after) && after.entries.Keys <= before.entries.Keys
    requires forall d :: d in after.entries ==> after.entries[d] == before.entries[d]
    ensures after.bytes <= before.bytes && |after.entries| <= |before.entries|
  {
    var into := map d | d in after.entries :: d;
    TotalInjects(Sizes(after.entries), Sizes(before.entries), into);
    FewerKeys(after.entries.Keys, before.entries.Keys);
    assert |after.entries.Keys| == |after.entries| && |before.entries.Keys| == |before.entries|;
  }

  lemma FewerKeys(a: set<Digest>, b: set<Digest>)
    requires a <= b
    ensures |a| <= |b|
  {
    assert b == a + (b - a);
  }

  lemma SmallerByOne(before: Bundles, after: Bundles, last: Digest)
    requires Accounted(before) && Accounted(after) && after.entries.Keys <= before.entries.Keys
    requires forall d :: d in after.entries ==> after.entries[d] == before.entries[d]
    requires last in before.entries && last !in after.entries
    ensures after.bytes + |before.entries[last].content| <= before.bytes && |after.entries| + 1 <= |before.entries|
  {
    RemovedAccounts(before, last);
    SmallerTotals(Bundles(before.entries - {last}, before.bytes - |before.entries[last].content|, before.clock), after);
  }

  // ---- The eviction loop ----

  /** Some candidates are gone, oldest first, each of them because room was still missing. */
  ghost predicate Evicting(before: Bundles, now: Bundles, spared: set<Digest>, last: Option<Digest>, bytes: nat, entries: nat, limits: Limits) {
    var gone := before.entries.Keys - now.entries.Keys;
    && Stamped(Stamps(before.entries), before.clock)
    && now.clock == before.clock && now.entries == Removed(before, gone)
    && Cut(Stamps(before.entries), before.entries.Keys - spared, gone)
    && (gone != {} ==>
          && last.Some? && last.value in gone && NewestOf(before, gone, last.value)
          && WasNeeded(before, now, last.value, bytes, entries, limits))
  }

  lemma StartEvicting(b: Bundles, spared: set<Digest>, bytes: nat, entries: nat, limits: Limits)
    requires Accounted(b)
    ensures Evicting(b, b, spared, None, bytes, entries, limits)
  {
    assert b.entries.Keys - b.entries.Keys == {};
    assert Removed(b, {}) == b.entries;
  }

  lemma EvictOne(before: Bundles, now: Bundles, spared: set<Digest>, last: Option<Digest>, bytes: nat, entries: nat, limits: Limits, oldest: Digest)
    requires Evicting(before, now, spared, last, bytes, entries, limits) && !Fits(now, bytes, entries, limits)
    requires oldest in now.entries.Keys - spared && |now.entries[oldest].content| <= now.bytes
    requires forall d :: d in now.entries.Keys - spared ==> Stamps(now.entries)[oldest] <= Stamps(now.entries)[d]
    ensures Evicting(before, Bundles(now.entries - {oldest}, now.bytes - |now.entries[oldest].content|, now.clock),
                     spared, Some(oldest), bytes, entries, limits)
  {
    OldestIsCut(before, now, spared, last, bytes, entries, limits, oldest);
    StillNeeded(before, now, bytes, entries, limits, oldest);
    OneMoreGone(before.entries, now.entries, oldest);
    hide Cut, NewestOf, Stamped, WasNeeded, Fits, Stamps;
  }

  lemma OldestIsCut(before: Bundles, now: Bundles, spared: set<Digest>, last: Option<Digest>, bytes: nat, entries: nat, limits: Limits, oldest: Digest)
    requires Evicting(before, now, spared, last, bytes, entries, limits) && oldest in now.entries.Keys - spared
    requires forall d :: d in now.entries.Keys - spared ==> Stamps(now.entries)[oldest] <= Stamps(now.entries)[d]
    ensures var gone := before.entries.Keys - now.entries.Keys + {oldest};
            && Cut(Stamps(before.entries), before.entries.Keys - spared, gone)
            && NewestOf(before, gone, oldest) && before.entries[oldest] == now.entries[oldest]
  {
    hide WasNeeded;
    var gone, candidates := before.entries.Keys - now.entries.Keys, before.entries.Keys - spared;
    assert candidates - gone == now.entries.Keys - spared;
    CutExtends(Stamps(before.entries), candidates, gone, oldest, before.clock);
  }

  lemma StillNeeded(before: Bundles, now: Bundles, bytes: nat, entries: nat, limits: Limits, oldest: Digest)
    requires !Fits(now, bytes, entries, limits) && oldest in now.entries && |now.entries[oldest].content| <= now.bytes
    requires oldest in before.entries && before.entries[oldest] == now.entries[oldest]
    ensures WasNeeded(before, Bundles(now.entries - {oldest}, now.bytes - |now.entries[oldest].content|, now.clock),
                      oldest, bytes, entries, limits)
  {
    OneLessKey(now.entries, oldest);
  }

  lemma DoneEvicting(before: Bundles, now: Bundles, spared: set<Digest>, last: Option<Digest>, bytes: nat, entries: nat, limits: Limits,
                     refusal: Option<CacheError>)
    requires Evicting(before, now, spared, last, bytes, entries, limits) && Accounted(now)
    requires refusal.None? ==> Fits(now, bytes, entries, limits)
    requires refusal.Some? ==>
               && !Fits(now, bytes, entries, limits) && now.entries.Keys - spared == {}
               && refusal.value == if now.bytes + bytes <= limits.bytes then EntriesExhausted else BytesExhausted
    ensures Evicts(before, now, bytes, entries, spared, limits, refusal)
  {
    hide Accounted;
    var gone, candidates := before.entries.Keys - now.entries.Keys, before.entries.Keys - spared;
    if refusal.Some? {
      assert gone == candidates by {
        forall d | d in candidates ensures d in gone { assert d !in now.entries.Keys - spared; }
      }
    }
  }

  // ---- The cache ----

  class BundleCache {
    var entries: map<Digest, Cached>
    var bundleBytes: nat
    var accessClock: nat
    const limits: Limits

    constructor (limits: Limits)
      ensures Valid() && View() == Bundles(map[], 0, 0) && this.limits == limits
    {
      this.limits := limits;
      entries := map[];
      bundleBytes := 0;
      accessClock := 0;
      new;
      assert Sizes(map[]) == map[];
    }

    ghost function View(): Bundles
      reads this
    {
      Bundles(entries, bundleBytes, accessClock)
    }

    ghost predicate Valid()
      reads this
    {
      Accounted(View()) && bundleBytes <= limits.bytes && |entries| <= limits.entries
    }

    method Get(d: Digest) returns (content: Option<Text>)
      requires Valid()
      modifies this
      ensures Valid() && View() == Touched(old(View()), d)
      ensures content == if d in old(entries) then Some(old(entries)[d].content) else None
      ensures bundleBytes == old(bundleBytes) && accessClock == old(accessClock) + 1
      ensures UsedAt(old(entries), entries, d, accessClock)
    {
      TouchedAccounts(View(), d);
      TouchedIsUsed(View(), d);
      hide Accounted, UsedAt, Sizes;
      accessClock := accessClock + 1;
      if d !in entries { return None; }
      content := Some(entries[d].content);
      ghost var keys := entries.Keys;
      entries := entries[d := entries[d].(lastAccess := accessClock)];
      assert entries.Keys == keys;
      assert |entries.Keys| == |entries| && |keys| == |old(entries)|;
    }

    method Insert(d: Digest, content: Text)
      requires Valid() && d !in entries && Fits(View(), |content|, 1, limits)
      modifies this
      ensures Valid() && View() == Inserted(old(View()), d, content)
      ensures entries == old(entries)[d := Cached(content, accessClock)] && MostRecent(entries, d)
      ensures bundleBytes == old(bundleBytes) + |content| && accessClock == old(accessClock) + 1
    {
      hide Accounted, MostRecent;
      InsertedAccounts(View(), d, content);
      AboveTheClock(View(), d, content);
      bundleBytes := bundleBytes + |content|;
      accessClock := accessClock + 1;
      entries := entries[d := Cached(content, accessClock)];
    }

    method EvictIdleToFit(bytes: nat, extra: nat, protected: set<Digest>, borrowed: set<Digest>) returns (refusal: Option<CacheError>)
      requires Valid()
      modifies this
      ensures Valid()
      ensures Evicts(old(View()), View(), bytes, extra, protected + borrowed, limits, refusal)
    {
      hide Accounted, Cut, Evicting, Evicts, Stamped;
      ghost var before, spared := View(), protected + borrowed;
      ghost var last: Option<Digest> := None;
      StartEvicting(before, spared, bytes, extra, limits);
      while true
        invariant Valid() && Evicting(before, View(), spared, last, bytes, extra, limits)
        decreases |entries|
      {
        var bytesFit := bundleBytes + bytes <= limits.bytes;
        var entriesFit := |entries| + extra <= limits.entries;
        if bytesFit && entriesFit {
          DoneEvicting(before, View(), spared, last, bytes, extra, limits, None);
          return None;
        }
        var idle := entries.Keys - (protected + borrowed);
        if idle == {} {
          refusal := Some(if !entriesFit && bytesFit then EntriesExhausted else BytesExhausted);
          DoneEvicting(before, View(), spared, last, bytes, extra, limits, refusal);
          return;
        }
        var oldest := Oldest(Stamps(entries), idle);
        RemovedAccounts(View(), oldest);
        EvictOne(before, View(), spared, last, bytes, extra, limits, oldest);
        bundleBytes := bundleBytes - |entries[oldest].content|;
        entries := entries - {oldest};
        last := Some(oldest);
      }
    }
  }
}
