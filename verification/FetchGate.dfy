/** Admission as the program runs it: one loop over the required bundles, one eviction, one reservation, all under
    the cache lock (crates/hand-brain-aws/src/ports/preparation.rs:223-279, crates/hand-brain-aws/src/cache.rs:500-553). */
module FetchGates {
  import opened Wrappers
  import opened RecordCodec
  import opened MapTotals
  import opened Arithmetic
  import opened BundleCaches
  import opened FetchAdmission

  /** A fetch authority: its byte bound, and whether it has expired. */
  datatype Fetch = Fetch(maxBytes: nat, expired: bool)

  predicate UsableFetch(fetch: Fetch, sealedBytes: nat, maxBundleBytes: nat) {
    !fetch.expired && sealedBytes <= fetch.maxBytes <= maxBundleBytes
  }

  /** The byte bounds of the fetches an admission accepts. */
  function Usable(seals: map<Digest, nat>, supplied: map<Digest, Fetch>, maxBundleBytes: nat): map<Digest, nat> {
    map d | d in seals && d in supplied && UsableFetch(supplied[d], seals[d], maxBundleBytes) :: supplied[d].maxBytes
  }

  lemma SeenOneMore(before: Bundles, now: Bundles, d: Digest)
    requires OnlyLooked(before, now)
    ensures OnlyLooked(before, Touched(now, d))
  {
    TouchedAccounts(now, d);
    hide Accounted;
  }

  // The declared sizes grow with each missing bundle.
  lemma DeclaredOneMore(cache: Bundles, done: set<Digest>, usable: map<Digest, nat>, d: Digest)
    requires d !in done && d in usable && d !in cache.entries
    ensures Missing(cache, done + {d}) == Missing(cache, done) + {d}
    ensures Total(Declared(cache, done + {d}, usable)) == Total(Declared(cache, done, usable)) + usable[d]
    ensures |Declared(cache, done + {d}, usable)| == |Declared(cache, done, usable)| + 1
  {
    var declared := Declared(cache, done, usable);
    assert d !in declared;
    assert Declared(cache, done + {d}, usable) == declared[d := usable[d]];
    TotalUpdated(declared, d, usable[d]);
    OneMoreKey(declared, d, usable[d]);
  }

  lemma DeclaredSame(cache: Bundles, done: set<Digest>, usable: map<Digest, nat>, d: Digest)
    requires d in cache.entries
    ensures Declared(cache, done + {d}, usable) == Declared(cache, done, usable)
    ensures Missing(cache, done + {d}) == Missing(cache, done)
  {
  }

  /** The declared size of the fetch for one bundle that is not cached. */
  method Quote(d: Digest, seals: map<Digest, nat>, supplied: map<Digest, Fetch>, maxBundleBytes: nat) returns (r: Result<nat, AdmitError>)
    requires d in seals
    ensures r == if d in Usable(seals, supplied, maxBundleBytes) then Ok(Usable(seals, supplied, maxBundleBytes)[d])
                 else Err(if d in supplied then InvalidFetch else Unavailable)
  {
    if d !in supplied { return Err(Unavailable); }
    var fetch := supplied[d];
    if fetch.expired || fetch.maxBytes > maxBundleBytes || fetch.maxBytes < seals[d] { return Err(InvalidFetch); }
    return Ok(fetch.maxBytes);
  }

  lemma Unmet(cache: Bundles, required: set<Digest>, usable: map<Digest, nat>, d: Digest)
    requires d in required && d !in cache.entries && d !in usable
    ensures !(Missing(cache, required) <= usable.Keys)
  {
    assert d in Missing(cache, required);
  }

  /** The required bundles that are cached. */
  function Resident(cache: Bundles, required: set<Digest>): set<Digest> {
    required * cache.entries.Keys
  }

  lemma ResidentGrows(cache: Bundles, done: set<Digest>, d: Digest)
    ensures Resident(cache, {}) == {}
    ensures Resident(cache, done + {d}) == if d in cache.entries then Resident(cache, done) + {d} else Resident(cache, done)
  {
  }

  /** Some bundle that is not cached comes without a fetch authority. */
  predicate LacksFetch(cache: Bundles, seals: map<Digest, nat>, supplied: map<Digest, Fetch>) {
    exists d :: d in seals && d !in cache.entries && d !in supplied
  }

  /** Some bundle that is not cached comes with a fetch authority that cannot be used. */
  predicate HasBadFetch(cache: Bundles, seals: map<Digest, nat>, supplied: map<Digest, Fetch>, maxBundleBytes: nat) {
    exists d :: d in seals && d !in cache.entries && d in supplied && !UsableFetch(supplied[d], seals[d], maxBundleBytes)
  }

  lemma NoFetchFor(cache: Bundles, seals: map<Digest, nat>, supplied: map<Digest, Fetch>, maxBundleBytes: nat, d: Digest)
    requires d in seals && d !in cache.entries && d !in Usable(seals, supplied, maxBundleBytes)
    ensures if d in supplied then HasBadFetch(cache, seals, supplied, maxBundleBytes) else LacksFetch(cache, seals, supplied)
  {
  }

  /** The cache object is in a valid state. */
  ghost predicate WellKept(cache: BundleCache)
    reads cache
  {
    cache.Valid()
  }

  lemma KeptIsAccounted(cache: BundleCache)
    requires WellKept(cache)
    ensures Accounted(cache.View())
  {
  }

  class FetchGate {
    const cache: BundleCache
    var inFlight: InFlight
    ghost var tickets: map<nat, Ticket>
    ghost var readers: map<nat, Digest>
    const fetchLimit: nat
    const maxBundleBytes: nat

    constructor (cache: BundleCache, fetchLimit: nat, maxBundleBytes: nat)
      requires cache.View() == Bundles(map[], 0, 0)
      ensures Valid() && this.cache == cache && View() == Plane(Bundles(map[], 0, 0), InFlight(0, 0), map[], map[])
    {
      this.cache := cache;
      this.inFlight := InFlight(0, 0);
      this.tickets := map[];
      this.readers := map[];
      this.fetchLimit := fetchLimit;
      this.maxBundleBytes := maxBundleBytes;
      new;
      InitInv(cache.limits);
    }

    ghost function View(): Plane
      reads this, cache
    {
      Plane(cache.View(), inFlight, tickets, readers)
    }

    ghost predicate Valid()
      reads this, cache
    {
      Inv(View(), cache.limits)
    }

    /** Looks up one required bundle: cached, to be fetched at its declared size, or neither. */
    method LookUp(d: Digest, seals: map<Digest, nat>, supplied: map<Digest, Fetch>) returns (r: Result<Option<nat>, AdmitError>)
      requires WellKept(cache) && d in seals
      modifies cache
      ensures WellKept(cache) && cache.View() == Touched(old(cache.View()), d)
      ensures UsedAt(old(cache.View()).entries, cache.View().entries, d, cache.View().clock)
      ensures r == if d in old(cache.View()).entries then Ok(None)
                   else if d in Usable(seals, supplied, maxBundleBytes) then Ok(Some(Usable(seals, supplied, maxBundleBytes)[d]))
                   else Err(if d in supplied then InvalidFetch else Unavailable)
    {
      hide Usable, Touched, UsedAt, Accounted;
      var resident := cache.Get(d);
      if resident.Some? { return Ok(None); }
      var size := Quote(d, seals, supplied, maxBundleBytes);
      return if size.Ok? then Ok(Some(size.value)) else Err(size.error);
    }

    /** Looks up every required bundle and adds up what must be fetched, up to the first one that cannot be. */
    method Survey(seals: map<Digest, nat>, supplied: map<Digest, Fetch>) returns (error: Option<AdmitError>, bytes: nat, entries: nat)
      requires WellKept(cache)
      modifies cache
      ensures WellKept(cache) && OnlyLooked(old(cache.View()), cache.View())
      ensures error.None? <==> Missing(old(cache.View()), seals.Keys) <= Usable(seals, supplied, maxBundleBytes).Keys
      ensures error.Some? ==> error.value in {Unavailable, InvalidFetch}
      ensures error == Some(Unavailable) ==> LacksFetch(old(cache.View()), seals, supplied)
      ensures error == Some(InvalidFetch) ==> HasBadFetch(old(cache.View()), seals, supplied, maxBundleBytes)
      ensures error.None? ==> Freshened(old(cache.View()), cache.View(), Resident(old(cache.View()), seals.Keys))
      ensures error.None? ==>
                var declared := Declared(old(cache.View()), seals.Keys, Usable(seals, supplied, maxBundleBytes));
                bytes == Total(declared) && entries == |declared|
    {
      hide WellKept, Accounted, OnlyLooked, Touched, Declared, Missing, Usable, Freshened, UsedAt, Resident, LacksFetch, HasBadFetch, Surveyed;
      ghost var before, usable := cache.View(), Usable(seals, supplied, maxBundleBytes);
      var left := seals.Keys;
      error, bytes, entries := None, 0, 0;
      KeptIsAccounted(cache);
      StartSurvey(before, usable);
      ghost var done: set<Digest> := {};
      while left != {}
        invariant WellKept(cache) && left !! done && left + done == seals.Keys
        invariant Surveyed(before, cache.View(), done, usable, bytes, entries)
        decreases |left|
      {
        var d :| d in left;
        ghost var now := cache.View();
        SameResidents(before, now, done, usable, bytes, entries, d);
        var found := LookUp(d, seals, supplied);
        LookedSurvey(before, now, cache.View(), done, usable, bytes, entries, d);
        if found.Err? {
          Unmet(before, seals.Keys, usable, d);
          NoFetchFor(before, seals, supplied, maxBundleBytes, d);
          return Some(found.error), 0, 0;
        }
        if found.value.Some? {
          SurveyMissing(before, now, cache.View(), done, usable, bytes, entries, d, found.value.value);
          bytes := bytes + found.value.value;
          entries := entries + 1;
        } else {
          SurveyResident(before, now, cache.View(), done, usable, bytes, entries, d);
        }
        left := left - {d};
        done := done + {d};
      }
      assert done == seals.Keys;
      SurveyedAll(before, cache.View(), seals.Keys, usable, bytes, entries);
    }

    /** Admits the fetches of one preparation. The event says which caches were passed through. */
    method Admit(ghost id: nat, seals: map<Digest, nat>, supplied: map<Digest, Fetch>, borrowed: set<Digest>)
      returns (error: Option<AdmitError>, ghost e: Event)
      requires Valid() && cache.Valid() && id !in tickets && borrowed == Borrowed(View())
      modifies this, cache
      ensures Valid() && cache.Valid()
      ensures e.Admit? && e.id == id && e.required == seals.Keys && e.supplied == Usable(seals, supplied, maxBundleBytes)
      ensures Step(old(View()), e, View(), cache.limits, fetchLimit)
      ensures error.None? <==> id in tickets
      ensures !(Missing(old(cache.View()), seals.Keys) <= e.supplied.Keys) ==> error in {Some(Unavailable), Some(InvalidFetch)}
      ensures Missing(old(cache.View()), seals.Keys) <= e.supplied.Keys && e.refusal.Some? ==> error == Some(Cache(e.refusal.value))
      ensures Missing(old(cache.View()), seals.Keys) <= e.supplied.Keys && e.refusal.None? ==>
                (error == Some(FetchExhausted) <==>
                   old(inFlight.bytes) + Total(Declared(old(cache.View()), seals.Keys, e.supplied)) > fetchLimit)
    {
      hide Inv, OnlyLooked, Evicts, Accounted, Declared, Usable, Freshened, LacksFetch, HasBadFetch;
      ghost var before, usable := View(), Usable(seals, supplied, maxBundleBytes);
      var bytes, entries;
      error, bytes, entries := Survey(seals, supplied);
      ghost var looked := cache.View();
      e := Event.Admit(id, seals.Keys, usable, looked, looked, None);
      if error.Some? {
        StepInv(before, e, View(), cache.limits, fetchLimit);
        return;
      }
      ghost var declared := Declared(before.cache, seals.Keys, usable);
      var refusal := cache.EvictIdleToFit(inFlight.bytes + bytes, inFlight.entries + entries, seals.Keys, borrowed);
      e := Event.Admit(id, seals.Keys, usable, looked, cache.View(), refusal);
      if refusal.Some? {
        error := Some(Cache(refusal.value));
      } else if inFlight.bytes + bytes > fetchLimit {
        error := Some(FetchExhausted);
      } else if cache.bundleBytes + inFlight.bytes + bytes > cache.limits.bytes {
        error := Some(Cache(BytesExhausted));
      } else if |cache.entries| + inFlight.entries + entries > MAX_CACHED_BUNDLES {
        error := Some(Cache(EntriesExhausted));
      } else {
        inFlight := InFlight(inFlight.bytes + bytes, inFlight.entries + entries);
        tickets := tickets[id := Ticket(seals.Keys, declared, false)];
      }
      StepInv(before, e, View(), cache.limits, fetchLimit);
    }

    /** Gives a reservation back when its guards are dropped. */
    method Drop(ghost id: nat, bytes: nat, entries: nat)
      requires Valid() && id in tickets && bytes == Total(tickets[id].declared) && entries == |tickets[id].declared|
      modifies this
      ensures Valid() && View() == Dropped(old(View()), id)
      ensures inFlight.bytes + bytes == old(inFlight.bytes) && inFlight.entries + entries == old(inFlight.entries)
    {
      hide Inv;
      DropReturns(View(), id, cache.limits);
      DropInv(View(), id, cache.limits);
      inFlight := InFlight(SaturatingSub(inFlight.bytes, bytes), SaturatingSub(inFlight.entries, entries));
      tickets := tickets - {id};
    }
  }

  lemma DropReturns(s: Plane, id: nat, limits: Limits)
    requires Inv(s, limits) && id in s.tickets
    ensures Total(s.tickets[id].declared) <= s.inFlight.bytes && |s.tickets[id].declared| <= s.inFlight.entries
  {
    hide Accounted, InFlightCounts, RoomIsReserved;
    DroppedCounts(s, id);
  }

  /** Halfway through a survey: `done` have been looked up and the missing ones among them added up. */
  ghost predicate Surveyed(before: Bundles, now: Bundles, done: set<Digest>, usable: map<Digest, nat>, bytes: nat, entries: nat) {
    && OnlyLooked(before, now) && Freshened(before, now, Resident(before, done)) && Missing(before, done) <= usable.Keys
    && bytes == Total(Declared(before, done, usable)) && entries == |Declared(before, done, usable)|
  }

  lemma StartSurvey(cache: Bundles, usable: map<Digest, nat>)
    requires Accounted(cache)
    ensures Surveyed(cache, cache, {}, usable, 0, 0)
  {
    assert Declared(cache, {}, usable) == map[];
  }

  lemma SurveyedKeys(before: Bundles, now: Bundles, done: set<Digest>, usable: map<Digest, nat>, bytes: nat, entries: nat)
    requires Surveyed(before, now, done, usable, bytes, entries)
    ensures now.entries.Keys == before.entries.Keys
  {
    hide Accounted, Declared;
  }

  lemma SameResidents(before: Bundles, now: Bundles, done: set<Digest>, usable: map<Digest, nat>, bytes: nat, entries: nat, d: Digest)
    requires Surveyed(before, now, done, usable, bytes, entries)
    ensures d in now.entries <==> d in before.entries
  {
    SurveyedKeys(before, now, done, usable, bytes, entries);
    hide Surveyed;
  }

  lemma LookedSurvey(before: Bundles, now: Bundles, next: Bundles, done: set<Digest>, usable: map<Digest, nat>, bytes: nat, entries: nat, d: Digest)
    requires Surveyed(before, now, done, usable, bytes, entries)
    requires next == Touched(now, d) && UsedAt(now.entries, next.entries, d, next.clock)
    ensures OnlyLooked(before, next)
    ensures Freshened(before, next, Resident(before, done + {d}))
  {
    SurveyedKeys(before, now, done, usable, bytes, entries);
    SeenOneMore(before, now, d);
    assert now.clock < next.clock;
    hide OnlyLooked, Freshened, UsedAt, Touched, Missing, Declared, Resident;
    FreshenUsed(before, now, next, Resident(before, done), d);
    ResidentGrows(before, done, d);
  }

  // A cached bundle adds nothing to fetch.
  lemma SurveyResident(before: Bundles, now: Bundles, next: Bundles, done: set<Digest>, usable: map<Digest, nat>, bytes: nat, entries: nat, d: Digest)
    requires Surveyed(before, now, done, usable, bytes, entries) && d in now.entries
    requires OnlyLooked(before, next) && Freshened(before, next, Resident(before, done + {d}))
    ensures Surveyed(before, next, done + {d}, usable, bytes, entries)
  {
    SurveyedKeys(before, now, done, usable, bytes, entries);
    hide OnlyLooked, Freshened, Missing, Declared, Resident;
    DeclaredSame(before, done, usable, d);
  }

  // A missing one adds its declared size.
  lemma SurveyMissing(before: Bundles, now: Bundles, next: Bundles, done: set<Digest>, usable: map<Digest, nat>, bytes: nat, entries: nat, d: Digest, size: nat)
    requires Surveyed(before, now, done, usable, bytes, entries) && d !in now.entries && d !in done && d in usable && usable[d] == size
    requires OnlyLooked(before, next) && Freshened(before, next, Resident(before, done + {d}))
    ensures Surveyed(before, next, done + {d}, usable, bytes + size, entries + 1)
  {
    SurveyedKeys(before, now, done, usable, bytes, entries);
    hide OnlyLooked, Freshened, Missing, Declared, Resident;
    DeclaredOneMore(before, done, usable, d);
  }

  lemma SurveyedAll(before: Bundles, now: Bundles, done: set<Digest>, usable: map<Digest, nat>, bytes: nat, entries: nat)
    requires Surveyed(before, now, done, usable, bytes, entries)
    ensures OnlyLooked(before, now) && Freshened(before, now, Resident(before, done)) && Missing(before, done) <= usable.Keys
    ensures bytes == Total(Declared(before, done, usable)) && entries == |Declared(before, done, usable)|
  {
    hide OnlyLooked, Freshened, Missing, Declared, Resident;
  }
}
