/** Bundle fetches that span a network wait: admission under the cache lock, a reservation and borrowed residents
    held meanwhile, and an install that needs no further room (crates/hand-brain-aws/src/ports/preparation.rs:223-311,
    crates/hand-brain-aws/src/cache.rs:293-316, 500-553). */
module FetchAdmission {
  import opened Wrappers
  import opened RecordCodec
  import opened MapTotals
  import opened Arithmetic
  import opened Lru
  import opened BundleCaches

  datatype AdmitError = Unavailable | InvalidFetch | FetchExhausted | Cache(error: CacheError)

  datatype InFlight = InFlight(bytes: nat, entries: nat)

  /** What one preparation holds from admission until its guards are dropped: the sizes it declared for bundles
      that were missing, and a borrow of each other bundle it requires. */
  datatype Ticket = Ticket(required: set<Digest>, declared: map<Digest, nat>, installed: bool)

  /** Readers are guests' installations that borrow one bundle each. */
  datatype Plane = Plane(cache: Bundles, inFlight: InFlight, tickets: map<nat, Ticket>, readers: map<nat, Digest>)

  /** The admission check: fetch bound, then bytes, then entries. */
  function Admission(inFlight: InFlight, cached: Bundles, bytes: nat, entries: nat, limits: Limits, fetchLimit: nat): Result<InFlight, AdmitError> {
    if inFlight.bytes + bytes > fetchLimit then Err(FetchExhausted)
    else if cached.bytes + inFlight.bytes + bytes > limits.bytes then Err(Cache(BytesExhausted))
    else if |cached.entries| + inFlight.entries + entries > MAX_CACHED_BUNDLES then Err(Cache(EntriesExhausted))
    else Ok(InFlight(inFlight.bytes + bytes, inFlight.entries + entries))
  }

  function Residents(t: Ticket): set<Digest> {
    t.required - t.declared.Keys
  }

  predicate IsBorrowed(s: Plane, d: Digest) {
    (exists i :: i in s.tickets && d in Residents(s.tickets[i])) || (exists r :: r in s.readers && s.readers[r] == d)
  }

  function Borrowed(s: Plane): set<Digest> {
    set d | d in s.cache.entries && IsBorrowed(s, d)
  }

  function Missing(cache: Bundles, required: set<Digest>): set<Digest> {
    required - cache.entries.Keys
  }

  /** Only access stamps differ. */
  ghost predicate OnlyLooked(before: Bundles, after: Bundles) {
    && after.entries.Keys == before.entries.Keys && after.bytes == before.bytes && before.clock <= after.clock && Accounted(after)
    && forall d :: d in before.entries ==> after.entries[d].content == before.entries[d].content
  }

  function FetchedSizes(fetched: map<Digest, Text>, which: set<Digest>): map<Digest, nat> {
    map d | d in which && d in fetched :: |fetched[d]|
  }

  /** The required bundles are in: what was missing with its fetched bytes, all else as it was. */
  ghost predicate Loaded(before: Bundles, after: Bundles, required: set<Digest>, fetched: map<Digest, Text>) {
    && after.entries.Keys == before.entries.Keys + required && before.clock <= after.clock && Accounted(after)
    && after.bytes == before.bytes + Total(FetchedSizes(fetched, Missing(before, required)))
    && (forall d :: d in before.entries ==> after.entries[d].content == before.entries[d].content)
    && (forall d :: d in Missing(before, required) ==> d in fetched && after.entries[d].content == fetched[d])
  }

  // ---- Steps, each under the cache lock ----

  /** The caches in between are given with the event. */
  datatype Event =
    | Admit(id: nat, required: set<Digest>, supplied: map<Digest, nat>, looked: Bundles, evicted: Bundles, refusal: Option<CacheError>)
    | Install(id: nat, fetched: map<Digest, Text>, evicted: Bundles, refusal: Option<CacheError>, loaded: Bundles)
    | Drop(id: nat)
    | Borrow(reader: nat, digest: Digest)
    | Return(reader: nat)

  function Declared(cache: Bundles, required: set<Digest>, supplied: map<Digest, nat>): map<Digest, nat> {
    map d | d in Missing(cache, required) && d in supplied :: supplied[d]
  }

  ghost predicate Admits(s: Plane, e: Event, t: Plane, limits: Limits, fetchLimit: nat)
    requires e.Admit?
  {
    && e.id !in s.tickets
    && OnlyLooked(s.cache, e.looked)
    && if !(Missing(s.cache, e.required) <= e.supplied.Keys) then t == s.(cache := e.looked)
       else
         var declared := Declared(s.cache, e.required, e.supplied);
         var admission := Admission(s.inFlight, e.evicted, Total(declared), |declared|, limits, fetchLimit);
         && Evicts(e.looked, e.evicted, s.inFlight.bytes + Total(declared), s.inFlight.entries + |declared|,
                   e.required + Borrowed(s), limits, e.refusal)
         && t == if e.refusal.Some? || admission.Err? then s.(cache := e.evicted)
                 else s.(cache := e.evicted, inFlight := admission.value,
                         tickets := s.tickets[e.id := Ticket(e.required, declared, false)])
  }

  /** The bytes came back: one bundle for each declared fetch, none larger than declared. */
  predicate FetchedAsDeclared(t: Ticket, fetched: map<Digest, Text>) {
    fetched.Keys == t.declared.Keys && forall d :: d in fetched ==> |fetched[d]| <= t.declared[d]
  }

  ghost predicate Installs(s: Plane, e: Event, t: Plane, limits: Limits)
    requires e.Install?
  {
    && e.id in s.tickets && !s.tickets[e.id].installed && FetchedAsDeclared(s.tickets[e.id], e.fetched)
    && var required := s.tickets[e.id].required;
       var missing := Missing(s.cache, required);
       if !(missing <= e.fetched.Keys) then t == s
       else
         && Evicts(s.cache, e.evicted, Total(FetchedSizes(e.fetched, missing)), |missing|, required + Borrowed(s), limits, e.refusal)
         && if e.refusal.Some? then t == s.(cache := e.evicted)
            else
              && Loaded(e.evicted, e.loaded, required, e.fetched)
              && t == s.(cache := e.loaded, tickets := s.tickets[e.id := s.tickets[e.id].(installed := true)])
  }

  ghost function Dropped(s: Plane, id: nat): Plane
    requires id in s.tickets
  {
    var t := s.tickets[id];
    s.(tickets := s.tickets - {id},
       inFlight := InFlight(SaturatingSub(s.inFlight.bytes, Total(t.declared)), SaturatingSub(s.inFlight.entries, |t.declared|)))
  }

  ghost predicate Step(s: Plane, e: Event, t: Plane, limits: Limits, fetchLimit: nat) {
    match e
    case Admit(_, _, _, _, _, _) => Admits(s, e, t, limits, fetchLimit)
    case Install(_, _, _, _, _) => Installs(s, e, t, limits)
    case Drop(id) => id in s.tickets && t == Dropped(s, id)
    case Borrow(r, d) =>
      r !in s.readers && d in s.cache.entries && t == s.(cache := Touched(s.cache, d), readers := s.readers[r := d])
    case Return(r) => t == s.(readers := s.readers - {r})
  }

  ghost predicate IsRun(run: seq<Plane>, events: seq<Event>, limits: Limits, fetchLimit: nat) {
    && |run| == |events| + 1
    && run[0] == Plane(Bundles(map[], 0, 0), InFlight(0, 0), map[], map[])
    && forall i :: 0 <= i < |events| ==> Step(run[i], events[i], run[i + 1], limits, fetchLimit)
  }

  // ---- The invariant ----

  ghost function ReservedBytes(tickets: map<nat, Ticket>): map<nat, nat> {
    map i | i in tickets :: Total(tickets[i].declared)
  }

  function ReservedEntries(tickets: map<nat, Ticket>): map<nat, nat> {
    map i | i in tickets :: |tickets[i].declared|
  }

  function Pending(tickets: map<nat, Ticket>): map<nat, Ticket> {
    map i | i in tickets && !tickets[i].installed :: tickets[i]
  }

  ghost predicate InFlightCounts(s: Plane) {
    && s.inFlight.bytes == Total(ReservedBytes(s.tickets))
    && s.inFlight.entries == Total(ReservedEntries(s.tickets))
  }

  /** Cached bytes plus everything that is still to be installed stay within the limits. */
  ghost predicate RoomIsReserved(s: Plane, limits: Limits) {
    && s.cache.bytes + Total(ReservedBytes(Pending(s.tickets))) <= limits.bytes
    && |s.cache.entries| + Total(ReservedEntries(Pending(s.tickets))) <= limits.entries
  }

  predicate ResidentsStay(s: Plane) {
    forall i :: i in s.tickets ==> Residents(s.tickets[i]) <= s.cache.entries.Keys && s.tickets[i].declared.Keys <= s.tickets[i].required
  }

  ghost predicate Inv(s: Plane, limits: Limits) {
    Accounted(s.cache) && InFlightCounts(s) && RoomIsReserved(s, limits) && ResidentsStay(s)
  }

  // ---- An admitted fetch can always be installed ----

  lemma FetchedAtMostDeclared(t: Ticket, fetched: map<Digest, Text>, missing: set<Digest>)
    requires FetchedAsDeclared(t, fetched) && missing <= fetched.Keys
    ensures Total(FetchedSizes(fetched, missing)) <= Total(t.declared) && |missing| <= |t.declared|
  {
    var sizes := FetchedSizes(fetched, missing);
    TotalInjects(sizes, t.declared, map d | d in sizes :: d);
    FewerKeys(missing, t.declared.Keys);
    assert |t.declared.Keys| == |t.declared|;
  }

  // Whatever interleaved since: no required bundle is missing that was not fetched, and what is missing fits
  // without any eviction.
  lemma InstallHasRoom(s: Plane, limits: Limits, id: nat, fetched: map<Digest, Text>)
    requires Inv(s, limits) && id in s.tickets && !s.tickets[id].installed && FetchedAsDeclared(s.tickets[id], fetched)
    ensures var missing := Missing(s.cache, s.tickets[id].required);
            && missing <= fetched.Keys
            && Fits(s.cache, Total(FetchedSizes(fetched, missing)), |missing|, limits)
  {
    hide Accounted;
    var t, missing := s.tickets[id], Missing(s.cache, s.tickets[id].required);
    assert missing <= t.declared.Keys by {
      assert Residents(t) <= s.cache.entries.Keys;
    }
    FetchedAtMostDeclared(t, fetched, missing);
    TotalAtLeast(ReservedBytes(Pending(s.tickets)), id);
    TotalAtLeast(ReservedEntries(Pending(s.tickets)), id);
  }

  /** An install that was refused neither for a missing bundle nor for room, and evicted nothing. */
  ghost predicate InstallsInPlace(s: Plane, e: Event, t: Plane)
    requires e.Install? && e.id in s.tickets
  {
    && e.refusal.None? && e.evicted == s.cache && Loaded(s.cache, e.loaded, s.tickets[e.id].required, e.fetched)
    && t == s.(cache := e.loaded, tickets := s.tickets[e.id := s.tickets[e.id].(installed := true)])
  }

  lemma InstallNeedsNoEviction(s: Plane, e: Event, t: Plane, limits: Limits)
    requires Inv(s, limits) && e.Install? && Installs(s, e, t, limits)
    ensures InstallsInPlace(s, e, t)
  {
    hide Accounted, Evicts, Loaded;
    var required := s.tickets[e.id].required;
    var missing := Missing(s.cache, required);
    InstallHasRoom(s, limits, e.id, e.fetched);
    NoNeedlessEviction(s.cache, e.evicted, Total(FetchedSizes(e.fetched, missing)), |missing|, required + Borrowed(s), limits, e.refusal);
  }

  // ---- Every step keeps the invariant ----

  lemma PendingAtMostReserved(tickets: map<nat, Ticket>)
    ensures Total(ReservedBytes(Pending(tickets))) <= Total(ReservedBytes(tickets))
    ensures Total(ReservedEntries(Pending(tickets))) <= Total(ReservedEntries(tickets))
  {
    var into := map i | i in Pending(tickets) :: i;
    TotalInjects(ReservedBytes(Pending(tickets)), ReservedBytes(tickets), into);
    TotalInjects(ReservedEntries(Pending(tickets)), ReservedEntries(tickets), into);
  }

  lemma BytesAdded(tickets: map<nat, Ticket>, id: nat, t: Ticket)
    requires id !in tickets
    ensures id !in ReservedBytes(tickets) && ReservedBytes(tickets[id := t]) == ReservedBytes(tickets)[id := Total(t.declared)]
  {
  }

  lemma EntriesAdded(tickets: map<nat, Ticket>, id: nat, t: Ticket)
    requires id !in tickets
    ensures id !in ReservedEntries(tickets) && ReservedEntries(tickets[id := t]) == ReservedEntries(tickets)[id := |t.declared|]
  {
  }

  // What admission itself adds to the reservations.
  lemma AdmittedTotals(tickets: map<nat, Ticket>, id: nat, t: Ticket)
    requires id !in tickets
    ensures var after := tickets[id := t];
            && Total(ReservedBytes(after)) == Total(ReservedBytes(tickets)) + Total(t.declared)
            && Total(ReservedEntries(after)) == Total(ReservedEntries(tickets)) + |t.declared|
  {
    hide ReservedBytes, ReservedEntries;
    BytesAdded(tickets, id, t);
    EntriesAdded(tickets, id, t);
    TotalUpdated(ReservedBytes(tickets), id, Total(t.declared));
    TotalUpdated(ReservedEntries(tickets), id, |t.declared|);
  }

  lemma TicketRemoved(tickets: map<nat, Ticket>, id: nat)
    requires id in tickets
    ensures Total(ReservedBytes(tickets - {id})) == Total(ReservedBytes(tickets)) - Total(tickets[id].declared)
    ensures Total(ReservedEntries(tickets - {id})) == Total(ReservedEntries(tickets)) - |tickets[id].declared|
    ensures Total(ReservedBytes(Pending(tickets - {id}))) <= Total(ReservedBytes(Pending(tickets)))
    ensures Total(ReservedEntries(Pending(tickets - {id}))) <= Total(ReservedEntries(Pending(tickets)))
  {
    hide ReservedBytes, ReservedEntries, Pending;
    TotalRemoved(ReservedBytes(tickets), id);
    TotalRemoved(ReservedEntries(tickets), id);
    ReservedWithout(tickets, id);
    PendingWithout(tickets, id);
    TotalRemoved(ReservedBytes(Pending(tickets)), id);
    TotalRemoved(ReservedEntries(Pending(tickets)), id);
  }

  lemma PendingWithout(tickets: map<nat, Ticket>, id: nat)
    ensures ReservedBytes(Pending(tickets - {id})) == ReservedBytes(Pending(tickets)) - {id}
    ensures ReservedEntries(Pending(tickets - {id})) == ReservedEntries(Pending(tickets)) - {id}
  {
  }

  lemma InstalledReserves(tickets: map<nat, Ticket>, id: nat)
    requires id in tickets
    ensures var after := tickets[id := tickets[id].(installed := true)];
            ReservedBytes(after) == ReservedBytes(tickets) && ReservedEntries(after) == ReservedEntries(tickets)
  {
  }

  lemma InstalledPending(tickets: map<nat, Ticket>, id: nat)
    requires id in tickets && !tickets[id].installed
    ensures Pending(tickets[id := tickets[id].(installed := true)]) == Pending(tickets) - {id}
    ensures id in Pending(tickets) && Pending(tickets)[id] == tickets[id]
  {
  }

  lemma ReservedWithout(tickets: map<nat, Ticket>, id: nat)
    requires id in tickets
    ensures ReservedBytes(tickets - {id}) == ReservedBytes(tickets) - {id}
    ensures ReservedEntries(tickets - {id}) == ReservedEntries(tickets) - {id}
    ensures id in ReservedBytes(tickets) && ReservedBytes(tickets)[id] == Total(tickets[id].declared)
    ensures id in ReservedEntries(tickets) && ReservedEntries(tickets)[id] == |tickets[id].declared|
  {
  }

  lemma TicketInstalled(tickets: map<nat, Ticket>, id: nat)
    requires id in tickets && !tickets[id].installed
    ensures var after := tickets[id := tickets[id].(installed := true)];
            && ReservedBytes(after) == ReservedBytes(tickets) && ReservedEntries(after) == ReservedEntries(tickets)
            && Total(ReservedBytes(Pending(after))) == Total(ReservedBytes(Pending(tickets))) - Total(tickets[id].declared)
            && Total(ReservedEntries(Pending(after))) == Total(ReservedEntries(Pending(tickets))) - |tickets[id].declared|
  {
    hide ReservedBytes, ReservedEntries, Pending;
    InstalledReserves(tickets, id);
    InstalledPending(tickets, id);
    ReservedWithout(Pending(tickets), id);
    TotalRemoved(ReservedBytes(Pending(tickets)), id);
    TotalRemoved(ReservedEntries(Pending(tickets)), id);
  }

  // Looking and evicting keep the invariant: nothing borrowed leaves, and counters only fall.
  lemma ShrunkInv(s: Plane, cache: Bundles, limits: Limits)
    requires Inv(s, limits) && Accounted(cache) && cache.bytes <= s.cache.bytes && |cache.entries| <= |s.cache.entries|
    requires Borrowed(s) <= cache.entries.Keys
    ensures Inv(s.(cache := cache), limits)
  {
    hide Accounted, InFlightCounts;
    forall i | i in s.tickets ensures Residents(s.tickets[i]) <= cache.entries.Keys {
      forall d | d in Residents(s.tickets[i]) ensures d in cache.entries {
        assert d in s.cache.entries && IsBorrowed(s, d);
        assert d in Borrowed(s);
      }
    }
    CountsIgnoreCache(s, cache);
  }

  lemma CountsIgnoreCache(s: Plane, cache: Bundles)
    requires InFlightCounts(s)
    ensures InFlightCounts(s.(cache := cache))
  {
  }

  lemma LookedInv(s: Plane, looked: Bundles, limits: Limits)
    requires Inv(s, limits) && OnlyLooked(s.cache, looked)
    ensures Inv(s.(cache := looked), limits) && Borrowed(s.(cache := looked)) == Borrowed(s)
  {
    hide Accounted;
    assert |looked.entries.Keys| == |looked.entries| && |s.cache.entries.Keys| == |s.cache.entries|;
    ShrunkInv(s, looked, limits);
  }

  lemma EvictedInv(s: Plane, after: Bundles, bytes: nat, entries: nat, protected: set<Digest>, limits: Limits, refusal: Option<CacheError>)
    requires Inv(s, limits) && Evicts(s.cache, after, bytes, entries, protected + Borrowed(s), limits, refusal)
    ensures Inv(s.(cache := after), limits)
    ensures protected * s.cache.entries.Keys <= after.entries.Keys
  {
    hide Accounted, Evicts, Inv;
    assert Accounted(s.cache) by { InvAccounts(s, limits); }
    EvictionShrinks(s.cache, after, bytes, entries, protected + Borrowed(s), limits, refusal);
    SmallerTotals(s.cache, after);
    forall d | d in s.cache.entries && (d in protected || d in Borrowed(s)) ensures d in after.entries {
      EvictionSpares(s.cache, after, bytes, entries, protected + Borrowed(s), limits, refusal, d);
    }
    ShrunkInv(s, after, limits);
  }

  lemma InvAccounts(s: Plane, limits: Limits)
    requires Inv(s, limits)
    ensures Accounted(s.cache)
  {
  }

  // The reservation counts from admission on: cached bytes and every reservation fit together.
  lemma AdmittedInv(s: Plane, id: nat, t: Ticket, inFlight: InFlight, limits: Limits)
    requires Inv(s, limits) && id !in s.tickets
    requires Fits(s.cache, s.inFlight.bytes + Total(t.declared), s.inFlight.entries + |t.declared|, limits)
    requires inFlight == InFlight(s.inFlight.bytes + Total(t.declared), s.inFlight.entries + |t.declared|)
    requires Residents(t) <= s.cache.entries.Keys && t.declared.Keys <= t.required
    ensures Inv(s.(inFlight := inFlight, tickets := s.tickets[id := t]), limits)
  {
    hide Accounted, InFlightCounts, RoomIsReserved, Residents;
    var after := s.(inFlight := inFlight, tickets := s.tickets[id := t]);
    assert InFlightCounts(after) by { AdmittedCounts(s, id, t, inFlight); }
    assert RoomIsReserved(after, limits) by { hide ResidentsStay; ReservedHasRoom(after, limits); }
  }

  lemma AdmittedCounts(s: Plane, id: nat, t: Ticket, inFlight: InFlight)
    requires InFlightCounts(s) && id !in s.tickets
    requires inFlight == InFlight(s.inFlight.bytes + Total(t.declared), s.inFlight.entries + |t.declared|)
    ensures InFlightCounts(s.(inFlight := inFlight, tickets := s.tickets[id := t]))
  {
    hide ReservedBytes, ReservedEntries;
    AdmittedTotals(s.tickets, id, t);
  }

  lemma ReservedHasRoom(s: Plane, limits: Limits)
    requires InFlightCounts(s) && Fits(s.cache, s.inFlight.bytes, s.inFlight.entries, limits)
    ensures RoomIsReserved(s, limits)
  {
    hide ReservedBytes, ReservedEntries, Pending;
    PendingAtMostReserved(s.tickets);
  }

  lemma AdmitInv(s: Plane, e: Event, t: Plane, limits: Limits, fetchLimit: nat)
    requires Inv(s, limits) && e.Admit? && Admits(s, e, t, limits, fetchLimit)
    ensures Inv(t, limits)
  {
    hide Inv, Evicts, OnlyLooked;
    LookedInv(s, e.looked, limits);
    if Missing(s.cache, e.required) <= e.supplied.Keys {
      var declared := Declared(s.cache, e.required, e.supplied);
      var bytes, entries := s.inFlight.bytes + Total(declared), s.inFlight.entries + |declared|;
      EvictedInv(s.(cache := e.looked), e.evicted, bytes, entries, e.required, limits, e.refusal);
      if e.refusal.None? && Admission(s.inFlight, e.evicted, Total(declared), |declared|, limits, fetchLimit).Ok? {
        var ticket := Ticket(e.required, declared, false);
        EvictionFits(e.looked, e.evicted, bytes, entries, e.required + Borrowed(s), limits, e.refusal);
        assert Residents(ticket) <= e.evicted.entries.Keys && declared.Keys <= e.required by { LookedKeys(s.cache, e.looked); }
        hide Fits, Declared, Residents;
        AdmittedInv(s.(cache := e.evicted), e.id, ticket, t.inFlight, limits);
      }
    }
  }

  lemma LookedKeys(before: Bundles, after: Bundles)
    requires OnlyLooked(before, after)
    ensures after.entries.Keys == before.entries.Keys
  {
  }

  lemma EvictionFits(before: Bundles, after: Bundles, bytes: nat, entries: nat, spared: set<Digest>, limits: Limits, refusal: Option<CacheError>)
    requires Evicts(before, after, bytes, entries, spared, limits, refusal) && refusal.None?
    ensures Fits(after, bytes, entries, limits)
  {
  }

  // After its own eviction succeeded, admission can only fail for the bound on concurrent fetches.
  lemma AdmissionOnlyBoundsFetches(s: Plane, e: Event, t: Plane, limits: Limits, fetchLimit: nat)
    requires e.Admit? && Admits(s, e, t, limits, fetchLimit) && limits.entries == MAX_CACHED_BUNDLES
    requires Missing(s.cache, e.required) <= e.supplied.Keys && e.refusal.None?
    ensures var declared := Declared(s.cache, e.required, e.supplied);
            e.id in t.tickets <==> s.inFlight.bytes + Total(declared) <= fetchLimit
  {
    hide Evicts, OnlyLooked;
    var declared := Declared(s.cache, e.required, e.supplied);
    EvictionFits(e.looked, e.evicted, s.inFlight.bytes + Total(declared), s.inFlight.entries + |declared|,
                 e.required + Borrowed(s), limits, e.refusal);
  }

  lemma InstallInv(s: Plane, e: Event, t: Plane, limits: Limits)
    requires Inv(s, limits) && e.Install? && Installs(s, e, t, limits)
    ensures Inv(t, limits)
  {
    hide Evicts, Accounted, Installs, InFlightCounts, RoomIsReserved, Loaded;
    assert e.id in s.tickets && !s.tickets[e.id].installed && FetchedAsDeclared(s.tickets[e.id], e.fetched) by {
      InstallTicket(s, e, t, limits);
    }
    InstallNeedsNoEviction(s, e, t, limits);
    LoadedKeys(s.cache, e.loaded, s.tickets[e.id].required, e.fetched);
    InstalledCounts(s, e.id, e.loaded);
    InstalledRoom(s, e.id, e.loaded, limits, e.fetched);
  }

  lemma LoadedKeys(before: Bundles, after: Bundles, required: set<Digest>, fetched: map<Digest, Text>)
    requires Loaded(before, after, required, fetched)
    ensures after.entries.Keys == before.entries.Keys + required && Accounted(after)
  {
    hide Accounted;
  }

  lemma InstalledCounts(s: Plane, id: nat, cache: Bundles)
    requires InFlightCounts(s) && id in s.tickets && !s.tickets[id].installed
    ensures InFlightCounts(s.(cache := cache, tickets := s.tickets[id := s.tickets[id].(installed := true)]))
  {
    hide ReservedBytes, ReservedEntries;
    TicketInstalled(s.tickets, id);
  }

  // What the install adds to the cache, its ticket no longer reserves.
  lemma InstalledRoom(s: Plane, id: nat, cache: Bundles, limits: Limits, fetched: map<Digest, Text>)
    requires RoomIsReserved(s, limits) && ResidentsStay(s) && id in s.tickets && !s.tickets[id].installed
    requires FetchedAsDeclared(s.tickets[id], fetched) && Loaded(s.cache, cache, s.tickets[id].required, fetched)
    ensures RoomIsReserved(s.(cache := cache, tickets := s.tickets[id := s.tickets[id].(installed := true)]), limits)
  {
    hide Accounted, ReservedBytes, ReservedEntries, Pending;
    var ticket, missing := s.tickets[id], Missing(s.cache, s.tickets[id].required);
    assert missing <= fetched.Keys by { assert Residents(ticket) <= s.cache.entries.Keys; }
    FetchedAtMostDeclared(ticket, fetched, missing);
    TicketInstalled(s.tickets, id);
    GrownBy(s.cache.entries.Keys, cache.entries.Keys, ticket.required);
    assert |cache.entries.Keys| == |cache.entries| && |s.cache.entries.Keys| == |s.cache.entries|;
  }

  lemma GrownBy(before: set<Digest>, after: set<Digest>, added: set<Digest>)
    requires after == before + added
    ensures |after| == |before| + |added - before|
  {
    assert after == before + (added - before);
  }

  // Dropping gives back exactly what was reserved: the saturating subtractions never clip.
  lemma DroppedCounts(s: Plane, id: nat)
    requires InFlightCounts(s) && id in s.tickets
    ensures Total(s.tickets[id].declared) <= s.inFlight.bytes && |s.tickets[id].declared| <= s.inFlight.entries
    ensures InFlightCounts(Dropped(s, id))
  {
    TicketRemoved(s.tickets, id);
    hide ReservedBytes, ReservedEntries;
  }

  lemma DroppedRoom(s: Plane, id: nat, limits: Limits)
    requires RoomIsReserved(s, limits) && id in s.tickets
    ensures RoomIsReserved(Dropped(s, id), limits)
  {
    TicketRemoved(s.tickets, id);
    hide ReservedBytes, ReservedEntries, Pending;
  }

  lemma DropInv(s: Plane, id: nat, limits: Limits)
    requires Inv(s, limits) && id in s.tickets
    ensures Inv(Dropped(s, id), limits)
  {
    hide Accounted, InFlightCounts, RoomIsReserved;
    DroppedCounts(s, id);
    DroppedRoom(s, id, limits);
  }

  lemma StepInv(s: Plane, e: Event, t: Plane, limits: Limits, fetchLimit: nat)
    requires Inv(s, limits) && Step(s, e, t, limits, fetchLimit)
    ensures Inv(t, limits)
  {
    hide Admits, Installs;
    match e
    case Admit(_, _, _, _, _, _) => hide Inv; AdmitInv(s, e, t, limits, fetchLimit);
    case Install(_, _, _, _, _) => hide Inv; InstallInv(s, e, t, limits);
    case Drop(id) => hide Inv; DropInv(s, id, limits);
    case Borrow(r, d) =>
      hide Accounted;
      TouchedAccounts(s.cache, d);
      assert |t.cache.entries.Keys| == |t.cache.entries| && |s.cache.entries.Keys| == |s.cache.entries|;
    case Return(r) => hide Accounted;
  }

  lemma InitInv(limits: Limits)
    ensures Inv(Plane(Bundles(map[], 0, 0), InFlight(0, 0), map[], map[]), limits)
  {
    assert Sizes(map[]) == map[];
    assert ReservedBytes(map[]) == map[] && ReservedEntries(map[]) == map[] && Pending(map[]) == map[];
  }

  lemma {:induction false} RunInv(run: seq<Plane>, events: seq<Event>, limits: Limits, fetchLimit: nat, i: nat)
    requires IsRun(run, events, limits, fetchLimit) && i < |run|
    ensures Inv(run[i], limits)
  {
    hide Inv, Step;
    if i == 0 {
      InitInv(limits);
    } else {
      RunInv(run, events, limits, fetchLimit, i - 1);
      StepInv(run[i - 1], events[i - 1], run[i], limits, fetchLimit);
    }
  }

  // However preparations, readers and evictions interleave: every admitted fetch that comes back as declared is
  // installed without evicting anything, never refused for bundle capacity or a missing bundle, and the cache
  // never exceeds its bounds.
  lemma AdmittedFetchesInstall(run: seq<Plane>, events: seq<Event>, limits: Limits, fetchLimit: nat, i: nat)
    requires IsRun(run, events, limits, fetchLimit) && i < |events|
    ensures events[i].Install? ==> events[i].id in run[i].tickets && InstallsInPlace(run[i], events[i], run[i + 1])
    ensures run[i].cache.bytes <= limits.bytes && |run[i].cache.entries| <= limits.entries
    ensures run[i].cache.bytes == Total(Sizes(run[i].cache.entries))
  {
    hide Installs, InstallsInPlace, Admits;
    RunInv(run, events, limits, fetchLimit, i);
    assert Step(run[i], events[i], run[i + 1], limits, fetchLimit);
    if events[i].Install? {
      assert events[i].id in run[i].tickets by { InstallTicket(run[i], events[i], run[i + 1], limits); }
      InstallNeedsNoEviction(run[i], events[i], run[i + 1], limits);
    }
  }

  lemma InstallTicket(s: Plane, e: Event, t: Plane, limits: Limits)
    requires e.Install? && Installs(s, e, t, limits)
    ensures e.id in s.tickets && !s.tickets[e.id].installed && FetchedAsDeclared(s.tickets[e.id], e.fetched)
  {
    hide Evicts, Loaded;
  }
}
