/** The two caches under one lock: installing a preparation, and admitting the fetches it needs
    (crates/hand-brain-aws/src/cache.rs:231-354, crates/hand-brain-aws/src/ports/preparation.rs:219-279). */
module PreparationCaches {
  import opened Wrappers
  import opened RecordCodec
  import opened MapTotals
  import opened Lru
  import opened BundleCaches
  import opened PreparationStores
  import opened FetchAdmission

  datatype InstallError = MovedRoot | SealChanged | UnreferencedFetch | BundleUnavailable | MetadataExhausted | NoBundleRoom(error: CacheError)

  /** A preparation as it will be cached. */
  datatype Request = Request(session: Session, root: Root, required: set<Digest>, publicDigest: Digest, metadataBytes: nat)

  /** What `install` checks before it changes anything, in order. */
  function Objection(s: Sessions, b: Bundles, q: Request, fetched: map<Digest, Text>, limits: Limits): Option<InstallError> {
    if q.session in s.sessions && s.sessions[q.session].root != q.root then Some(MovedRoot)
    else if q.session in s.sessions && s.sessions[q.session].publicDigest != q.publicDigest then Some(SealChanged)
    else if !(fetched.Keys <= q.required) then Some(UnreferencedFetch)
    else if !(Missing(b, q.required) <= fetched.Keys) then Some(BundleUnavailable)
    else if q.metadataBytes > limits.bytes || limits.entries == 0 then Some(MetadataExhausted)
    else None
  }

  /** The session is unknown, or prepared under the same root with the same seal. */
  predicate SameSeal(s: Sessions, q: Request) {
    q.session in s.sessions ==> s.sessions[q.session].root == q.root && s.sessions[q.session].publicDigest == q.publicDigest
  }

  // Exactly which request is refused, and for what.
  lemma ObjectionIff(s: Sessions, b: Bundles, q: Request, fetched: map<Digest, Text>, limits: Limits)
    ensures var objection := Objection(s, b, q, fetched, limits);
            && (objection == Some(MovedRoot) <==> q.session in s.sessions && s.sessions[q.session].root != q.root)
            && (objection == Some(SealChanged) <==>
                  && q.session in s.sessions && s.sessions[q.session].root == q.root
                  && s.sessions[q.session].publicDigest != q.publicDigest)
            && (objection == Some(UnreferencedFetch) <==> SameSeal(s, q) && exists d :: d in fetched && d !in q.required)
            && (objection == Some(BundleUnavailable) <==>
                  && SameSeal(s, q) && fetched.Keys <= q.required
                  && exists d :: d in q.required && d !in fetched && d !in b.entries)
            && (objection == Some(MetadataExhausted) <==>
                  && SameSeal(s, q) && fetched.Keys <= q.required && q.required <= fetched.Keys + b.entries.Keys
                  && (q.metadataBytes > limits.bytes || limits.entries == 0))
            && !(objection.Some? && objection.value.NoBundleRoom?)
  {
    assert Missing(b, q.required) <= fetched.Keys <==> q.required <= fetched.Keys + b.entries.Keys;
    if fetched.Keys <= q.required && !(Missing(b, q.required) <= fetched.Keys) {
      var d :| d in Missing(b, q.required) && d !in fetched;
      assert d in q.required && d !in b.entries;
    }
    if !(fetched.Keys <= q.required) {
      var d :| d in fetched && d !in q.required;
    }
  }

  /** The session entry after an install: the request, at the newest access stamp. */
  predicate Prepared(s: Sessions, q: Request) {
    && q.session in s.sessions
    && s.sessions[q.session] == Preparation(q.root, q.required, q.publicDigest, q.metadataBytes, s.clock)
  }

  // An installed preparation is the one used last.
  lemma PreparedIsLastUsed(s: Sessions, q: Request)
    requires Kept(s) && Prepared(s, q)
    ensures LastUsed(s.sessions, q.session)
  {
    forall x | x in s.sessions && x != q.session ensures s.sessions[x].lastAccess < s.clock {
      assert AccessTimes(s.sessions)[x] <= s.clock && AccessTimes(s.sessions)[q.session] == s.clock;
    }
  }

  // ---- Loading bundles one by one ----

  lemma StartLoading(b: Bundles, fetched: map<Digest, Text>)
    requires Accounted(b)
    ensures Loaded(b, b, {}, fetched)
  {
    assert FetchedSizes(fetched, Missing(b, {})) == map[];
  }

  lemma LoadKnown(before: Bundles, now: Bundles, done: set<Digest>, fetched: map<Digest, Text>, d: Digest)
    requires Loaded(before, now, done, fetched) && d in before.entries
    ensures Loaded(before, now, done + {d}, fetched)
  {
    hide Accounted;
    assert Missing(before, done + {d}) == Missing(before, done);
    assert now.entries.Keys == before.entries.Keys + (done + {d});
  }

  lemma LoadFetched(before: Bundles, now: Bundles, done: set<Digest>, fetched: map<Digest, Text>, d: Digest)
    requires Loaded(before, now, done, fetched) && d !in now.entries && d in fetched
    ensures Loaded(before, Inserted(now, d, fetched[d]), done + {d}, fetched)
  {
    var next := Inserted(now, d, fetched[d]);
    hide Accounted, FetchedSizes;
    assert Accounted(next) by { InsertedAccounts(now, d, fetched[d]); }
    OneMoreFetched(before, done, fetched, d);
    InsertedKeys(before, now, done, fetched, d);
    forall x | x in Missing(before, done + {d}) ensures x in fetched && next.entries[x].content == fetched[x] {
      if x != d { assert x in Missing(before, done); }
    }
  }

  lemma InsertedKeys(before: Bundles, now: Bundles, done: set<Digest>, fetched: map<Digest, Text>, d: Digest)
    requires now.entries.Keys == before.entries.Keys + done && d in fetched
    ensures Inserted(now, d, fetched[d]).entries.Keys == before.entries.Keys + (done + {d})
  {
  }

  lemma OneMoreFetched(before: Bundles, done: set<Digest>, fetched: map<Digest, Text>, d: Digest)
    requires d !in before.entries && d !in done && d in fetched
    ensures Total(FetchedSizes(fetched, Missing(before, done + {d})))
            == Total(FetchedSizes(fetched, Missing(before, done))) + |fetched[d]|
  {
    assert Missing(before, done + {d}) == Missing(before, done) + {d};
    CountOne(fetched, Missing(before, done), d);
  }

  lemma LoadTouched(before: Bundles, now: Bundles, done: set<Digest>, fetched: map<Digest, Text>, d: Digest)
    requires Loaded(before, now, done, fetched)
    ensures Loaded(before, Touched(now, d), done, fetched)
  {
    TouchedAccounts(now, d);
    hide Accounted;
  }

  // Part of what will be loaded never exceeds the room made for all of it.
  lemma PartFits(before: Bundles, now: Bundles, done: set<Digest>, required: set<Digest>, fetched: map<Digest, Text>, limits: Limits, d: Digest)
    requires Loaded(before, now, done, fetched) && done <= required && Missing(before, required) <= fetched.Keys
    requires Fits(before, Total(FetchedSizes(fetched, Missing(before, required))), |Missing(before, required)|, limits)
    requires d in required && d !in now.entries
    ensures d in fetched && Fits(now, |fetched[d]|, 1, limits)
  {
    hide Accounted;
    assert d in Missing(before, required) && d !in done;
    PartBytes(before, done, required, fetched, d);
    PartEntries(before, now, done, required, d);
    hide FetchedSizes, Missing;
  }

  lemma PartBytes(before: Bundles, done: set<Digest>, required: set<Digest>, fetched: map<Digest, Text>, d: Digest)
    requires done <= required && Missing(before, required) <= fetched.Keys && d in Missing(before, required) && d !in done
    ensures Total(FetchedSizes(fetched, Missing(before, done))) + |fetched[d]| <= Total(FetchedSizes(fetched, Missing(before, required)))
  {
    var all, part := FetchedSizes(fetched, Missing(before, required)), FetchedSizes(fetched, Missing(before, done));
    TotalWithout(all, d);
    TotalInjects(part, all - {d}, map x | x in part :: x);
  }

  lemma PartEntries(before: Bundles, now: Bundles, done: set<Digest>, required: set<Digest>, d: Digest)
    requires now.entries.Keys == before.entries.Keys + done && done <= required && d in Missing(before, required) && d !in done
    ensures |now.entries| + 1 <= |before.entries| + |Missing(before, required)|
  {
    GrownBy(before.entries.Keys, now.entries.Keys, done);
    FewerKeys(Missing(before, done) + {d}, Missing(before, required));
    KeysCount(now.entries);
    KeysCount(before.entries);
  }

  lemma KeysCount(entries: map<Digest, Cached>)
    ensures |entries.Keys| == |entries|
  {
  }

  lemma NothingFetched(fetched: map<Digest, Text>)
    ensures Total(FetchedSizes(fetched, {})) == 0
  {
    assert FetchedSizes(fetched, {}) == map[];
  }

  lemma CountOne(fetched: map<Digest, Text>, counted: set<Digest>, d: Digest)
    requires d in fetched && d !in counted
    ensures Total(FetchedSizes(fetched, counted + {d})) == Total(FetchedSizes(fetched, counted)) + |fetched[d]|
  {
    var sizes := FetchedSizes(fetched, counted);
    assert d !in sizes;
    TotalUpdated(sizes, d, |fetched[d]|);
    assert FetchedSizes(fetched, counted + {d}) == sizes[d := |fetched[d]|];
  }

  class PreparationCache {
    const store: PreparationStore
    const bundles: BundleCache

    constructor (store: PreparationStore, bundles: BundleCache)
      ensures this.store == store && this.bundles == bundles
    {
      this.store := store;
      this.bundles := bundles;
    }

    ghost predicate Valid()
      reads this, store, bundles
    {
      store.Valid() && bundles.Valid()
    }

    /** The bytes of the fetched bundles that are not resident. */
    method MissingBytes(missing: set<Digest>, fetched: map<Digest, Text>) returns (total: nat)
      requires missing <= fetched.Keys
      ensures total == Total(FetchedSizes(fetched, missing))
    {
      hide FetchedSizes;
      var left := missing;
      total := 0;
      assert missing - left == {};
      NothingFetched(fetched);
      while left != {}
        invariant left <= missing && total == Total(FetchedSizes(fetched, missing - left))
        decreases |left|
      {
        var d :| d in left;
        CountOne(fetched, missing - left, d);
        assert missing - (left - {d}) == missing - left + {d};
        left := left - {d};
        total := total + |fetched[d]|;
      }
      assert missing - left == missing;
    }

    /** Inserts what is missing and touches every required bundle. */
    method LoadBundles(required: set<Digest>, fetched: map<Digest, Text>)
      requires bundles.Valid() && Missing(bundles.View(), required) <= fetched.Keys
      requires Fits(bundles.View(), Total(FetchedSizes(fetched, Missing(bundles.View(), required))), |Missing(bundles.View(), required)|, bundles.limits)
      modifies bundles
      ensures bundles.Valid() && Loaded(old(bundles.View()), bundles.View(), required, fetched)
      ensures Freshened(old(bundles.View()), bundles.View(), required)
    {
      hide Accounted, Loaded, Touched, Inserted, FetchedSizes, Missing, Fits, Freshened, MostRecent, UsedAt;
      ghost var before := bundles.View();
      var left := required;
      StartLoading(before, fetched);
      assert Freshened(before, before, {}) by { StartFreshening(before); }
      assert required - left == {};
      while left != {}
        invariant bundles.Valid() && left <= required && Loaded(before, bundles.View(), required - left, fetched)
        invariant Freshened(before, bundles.View(), required - left)
        decreases |left|
      {
        var d :| d in left;
        ghost var done := required - left;
        if d !in bundles.entries {
          PartFits(before, bundles.View(), done, required, fetched, bundles.limits, d);
          LoadFetched(before, bundles.View(), done, fetched, d);
          ghost var without := bundles.View();
          bundles.Insert(d, fetched[d]);
          FreshenInserted(before, without, bundles.View(), done, d, fetched[d]);
          done := done + {d};
        } else {
          assert d in before.entries by { LoadedKeys(before, bundles.View(), done, fetched); }
          LoadKnown(before, bundles.View(), done, fetched, d);
        }
        assert Loaded(before, bundles.View(), done + {d}, fetched) by { assert done + {d} + {d} == done + {d}; }
        LoadTouched(before, bundles.View(), done + {d}, fetched, d);
        ghost var untouched := bundles.View();
        var _ := bundles.Get(d);
        FreshenUsed(before, untouched, bundles.View(), done, d);
        left := left - {d};
        assert required - left == done + {d};
      }
      assert required - left == required;
    }

    /** Installs a preparation. `borrowed` are the bundles somebody holds. The metadata eviction never fails and takes
        exactly the least recently used other sessions it needs, which leaves `kept`; a refusal after the checks can only
        be for bundle room, and then only the evictions have happened. */
    method Install(q: Request, fetched: map<Digest, Text>, borrowed: set<Digest>)
      returns (error: Option<InstallError>, ghost evicted: Bundles, ghost refusal: Option<CacheError>, ghost kept: Sessions,
               ghost last: Option<Session>)
      requires Valid()
      modifies store, bundles
      ensures Valid()
      ensures error.None? ==> SameSeal(old(store.View()), q)
      ensures error == Some(MovedRoot) <==> q.session in old(store.sessions) && old(store.sessions)[q.session].root != q.root
      ensures error == Some(SealChanged) <==>
                && q.session in old(store.sessions) && old(store.sessions)[q.session].root == q.root
                && old(store.sessions)[q.session].publicDigest != q.publicDigest
      ensures var objection := Objection(old(store.View()), old(bundles.View()), q, fetched, store.limits);
              if objection.Some? then
                error == objection && store.View() == old(store.View()) && bundles.View() == old(bundles.View())
              else
                var missing := Missing(old(bundles.View()), q.required);
                && MadeRoom(old(store.View()), kept, q, store.limits, last)
                && Evicts(old(bundles.View()), evicted, Total(FetchedSizes(fetched, missing)), |missing|, q.required + borrowed, bundles.limits, refusal)
                && (refusal.Some? ==> error == Some(NoBundleRoom(refusal.value)) && bundles.View() == evicted && store.View() == kept)
                && (refusal.None? ==>
                      && error.None? && Loaded(evicted, bundles.View(), q.required, fetched) && Prepared(store.View(), q)
                      && Freshened(evicted, bundles.View(), q.required)
                      && store.sessions - {q.session} == kept.sessions - {q.session})
    {
      hide Accounted, Kept, Evicts, Loaded, MadeRoom, Freshened;
      evicted, refusal, kept, last := bundles.View(), None, store.View(), None;
      if q.session in store.sessions && store.sessions[q.session].root != q.root { error := Some(MovedRoot); return; }
      if q.session in store.sessions && store.sessions[q.session].publicDigest != q.publicDigest { error := Some(SealChanged); return; }
      if !(fetched.Keys <= q.required) { error := Some(UnreferencedFetch); return; }
      if !(q.required - bundles.entries.Keys <= fetched.Keys) { error := Some(BundleUnavailable); return; }
      if q.metadataBytes > store.limits.bytes || store.limits.entries == 0 { error := Some(MetadataExhausted); return; }
      last := MakeMetadataRoom(q);
      kept := store.View();
      var missing := q.required - bundles.entries.Keys;
      var additional := MissingBytes(missing, fetched);
      var refused := bundles.EvictIdleToFit(additional, |missing|, q.required, borrowed);
      evicted, refusal := bundles.View(), refused;
      if refused.Some? { error := Some(NoBundleRoom(refused.value)); return; }
      StillMissing(old(bundles.View()), evicted, additional, |missing|, q.required, borrowed, bundles.limits, refusal);
      LoadBundles(q.required, fetched);
      RoomAfterDrop(old(store.View()), kept, q, store.limits, last);
      EnterSession(q);
      error := None;
    }

    /** Evicts metadata until the preparation fits beside what it replaces. */
    method MakeMetadataRoom(q: Request) returns (ghost last: Option<Session>)
      requires store.Valid() && q.metadataBytes <= store.limits.bytes && store.limits.entries > 0
      modifies store
      ensures store.Valid() && MadeRoom(old(store.View()), store.View(), q, store.limits, last)
    {
      hide Kept, PreparationStores.Dropped;
      var prior := if q.session in store.sessions then store.sessions[q.session].metadataBytes else 0;
      var bytes := if q.metadataBytes <= prior then 0 else q.metadataBytes - prior;
      var entries := if q.session in store.sessions then 0 else 1;
      ghost var before := store.View();
      var ok;
      ok, last := store.EvictPreparationsToFit(bytes, entries, q.session);
      DroppedSpares(before, store.View(), bytes, entries, q.session, store.limits, last);
      if !ok { AloneThereIsRoom(store.View(), q.metadataBytes, q.session, store.limits); }
    }

    method EnterSession(q: Request)
      requires store.Valid()
      requires HasRoom(store.View(), Additional(store.View(), q.metadataBytes, q.session), if q.session in store.sessions then 0 else 1, store.limits)
      modifies store
      ensures store.Valid() && Prepared(store.View(), q)
      ensures store.sessions - {q.session} == old(store.sessions) - {q.session}
    {
      hide Kept, HasRoom, Additional;
      ForgetSession(q);
      OnlyThatKey(old(store.sessions), q.session, Preparation(q.root, q.required, q.publicDigest, q.metadataBytes, store.accessClock + 1));
      store.Enter(q.session, Preparation(q.root, q.required, q.publicDigest, q.metadataBytes, 0));
    }

    /** Removes what a preparation replaces; then there is room for all of it. */
    method ForgetSession(q: Request)
      requires store.Valid()
      requires HasRoom(store.View(), Additional(store.View(), q.metadataBytes, q.session), if q.session in store.sessions then 0 else 1, store.limits)
      modifies store
      ensures store.Valid() && store.sessions == old(store.sessions) - {q.session}
      ensures HasRoom(store.View(), q.metadataBytes, 1, store.limits)
    {
      hide Kept, RootsWithout;
      ghost var before := store.View();
      if q.session !in before.sessions { KeyGone(before.sessions, q.session); }
      RoomWithout(before, q, store.limits);
      hide Additional;
      store.RemoveSession(q.session);
    }
  }

  lemma KeyGone(sessions: map<Session, Preparation>, x: Session)
    requires x !in sessions
    ensures sessions - {x} == sessions
  {
  }

  /** Of the other sessions exactly the least recently used are gone, no more than the preparation needs beside what it
      replaces, and now it fits. */
  ghost predicate MadeRoom(before: Sessions, after: Sessions, q: Request, limits: Limits, last: Option<Session>) {
    var bytes, entries := Additional(before, q.metadataBytes, q.session), if q.session in before.sessions then 0 else 1;
    PreparationStores.Dropped(before, after, bytes, entries, {q.session}, limits, last) && HasRoom(after, bytes, entries, limits)
  }

  // What fits beside the session it replaces fits once that session is gone.
  lemma RoomWithout(s: Sessions, q: Request, limits: Limits)
    requires HasRoom(s, Additional(s, q.metadataBytes, q.session), if q.session in s.sessions then 0 else 1, limits)
    requires Kept(s) && s.bytes <= limits.bytes
    ensures var without := if q.session in s.sessions then s.sessions[q.session].metadataBytes else 0;
            && without <= s.bytes && s.bytes - without + q.metadataBytes <= limits.bytes
            && |s.sessions - {q.session}| + 1 <= limits.entries
  {
    OnlyThatKey(s.sessions, q.session, Preparation(q.root, q.required, q.publicDigest, q.metadataBytes, 0));
    if q.session in s.sessions {
      OneLessKey(s.sessions, q.session);
      RemovedKept(s, q.session);
    }
    hide Kept;
  }

  lemma RoomAfterDrop(before: Sessions, after: Sessions, q: Request, limits: Limits, last: Option<Session>)
    requires MadeRoom(before, after, q, limits, last)
    ensures HasRoom(after, Additional(after, q.metadataBytes, q.session), if q.session in after.sessions then 0 else 1, limits)
  {
    hide PreparationStores.Dropped;
    DroppedSpares(before, after, Additional(before, q.metadataBytes, q.session), if q.session in before.sessions then 0 else 1,
                  q.session, limits, last);
  }

  lemma DroppedSpares(before: Sessions, after: Sessions, bytes: nat, entries: nat, protected: Session, limits: Limits, last: Option<Session>)
    requires PreparationStores.Dropped(before, after, bytes, entries, {protected}, limits, last)
    ensures protected in before.sessions <==> protected in after.sessions
    ensures forall x :: x in after.sessions ==> x in before.sessions && after.sessions[x] == before.sessions[x]
  {
  }

  // The eviction inside an install takes no required bundle, so the same ones are missing after it.
  lemma StillMissing(before: Bundles, after: Bundles, bytes: nat, entries: nat, required: set<Digest>, borrowed: set<Digest>, limits: Limits,
                     refusal: Option<CacheError>)
    requires Evicts(before, after, bytes, entries, required + borrowed, limits, refusal) && refusal.None?
    ensures Missing(after, required) == Missing(before, required) && Fits(after, bytes, entries, limits)
  {
    hide Accounted;
  }
}
