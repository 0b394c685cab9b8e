/** Session preparation metadata: one LRU bounded by bytes and entries, with an index from root to sessions
    (crates/hand-brain-aws/src/cache.rs:99-157, 357-376). */
module PreparationStores {
  import opened Wrappers
  import opened MapTotals
  import opened Lru
  import opened BundleCaches

  datatype Session = Session(id: string)
  datatype Root = Root(id: string)

  datatype Preparation = Preparation(root: Root, required: set<Digest>, publicDigest: Digest, metadataBytes: nat, lastAccess: nat)

  datatype Sessions = Sessions(sessions: map<Session, Preparation>, roots: map<Root, set<Session>>, bytes: nat, clock: nat)

  function Metadata(sessions: map<Session, Preparation>): map<Session, nat> {
    map x | x in sessions :: sessions[x].metadataBytes
  }

  function AccessTimes(sessions: map<Session, Preparation>): map<Session, nat> {
    map x | x in sessions :: sessions[x].lastAccess
  }

  function SessionsOf(sessions: map<Session, Preparation>, root: Root): set<Session> {
    set x | x in sessions && sessions[x].root == root
  }

  /** The root index is the exact inverse of session-to-root and holds no empty set. */
  predicate IndexExact(s: Sessions) {
    && (forall r :: r in s.roots ==> s.roots[r] == SessionsOf(s.sessions, r) && s.roots[r] != {})
    && (forall x :: x in s.sessions ==> s.sessions[x].root in s.roots)
  }

  ghost predicate Kept(s: Sessions) {
    && s.bytes == Total(Metadata(s.sessions))
    && Stamped(AccessTimes(s.sessions), s.clock)
    && IndexExact(s)
  }

  predicate HasRoom(s: Sessions, bytes: nat, entries: nat, limits: Limits) {
    s.bytes + bytes <= limits.bytes && |s.sessions| + entries <= limits.entries
  }

  // ---- Removing, entering and touching one session ----

  function RootsWithout(roots: map<Root, set<Session>>, root: Root, x: Session): map<Root, set<Session>> {
    if root !in roots then roots
    else if roots[root] - {x} == {} then roots - {root}
    else roots[root := roots[root] - {x}]
  }

  function WithoutSession(s: Sessions, x: Session): Sessions
    requires x in s.sessions && s.sessions[x].metadataBytes <= s.bytes
  {
    var gone := s.sessions[x];
    Sessions(s.sessions - {x}, RootsWithout(s.roots, gone.root, x), s.bytes - gone.metadataBytes, s.clock)
  }

  function WithSession(s: Sessions, x: Session, p: Preparation): Sessions {
    Sessions(s.sessions[x := p.(lastAccess := s.clock + 1)],
             s.roots[p.root := (if p.root in s.roots then s.roots[p.root] else {}) + {x}],
             s.bytes + p.metadataBytes, s.clock + 1)
  }

  function Looked(s: Sessions, x: Session): Sessions {
    s.(clock := s.clock + 1,
       sessions := if x in s.sessions then s.sessions[x := s.sessions[x].(lastAccess := s.clock + 1)] else s.sessions)
  }

  lemma RemovedIndex(s: Sessions, x: Session)
    requires IndexExact(s) && x in s.sessions && s.sessions[x].metadataBytes <= s.bytes
    ensures IndexExact(WithoutSession(s, x))
  {
    var t, root := WithoutSession(s, x), s.sessions[x].root;
    assert SessionsOf(t.sessions, root) == SessionsOf(s.sessions, root) - {x};
    forall r | r in t.roots ensures t.roots[r] == SessionsOf(t.sessions, r) && t.roots[r] != {} {
      if r != root { assert SessionsOf(t.sessions, r) == SessionsOf(s.sessions, r); }
    }
    forall y | y in t.sessions ensures t.sessions[y].root in t.roots {
      if t.sessions[y].root == root { assert y in SessionsOf(t.sessions, root); }
    }
  }

  lemma RemovedKept(s: Sessions, x: Session)
    requires Kept(s) && x in s.sessions
    ensures s.sessions[x].metadataBytes <= s.bytes && Kept(WithoutSession(s, x))
    ensures |WithoutSession(s, x).sessions| == |s.sessions| - 1
  {
    hide IndexExact, Stamped, RootsWithout;
    TotalRemoved(Metadata(s.sessions), x);
    TotalAtLeast(Metadata(s.sessions), x);
    RemovedMaps(s.sessions, x);
    OneLessKey(s.sessions, x);
    RemovedIndex(s, x);
    FewerStamps(AccessTimes(s.sessions), s.clock, x);
  }

  lemma RemovedMaps(sessions: map<Session, Preparation>, x: Session)
    ensures Metadata(sessions - {x}) == Metadata(sessions) - {x}
    ensures AccessTimes(sessions - {x}) == AccessTimes(sessions) - {x}
  {
  }

  lemma FewerStamps(stamps: map<Session, nat>, clock: nat, x: Session)
    requires Stamped(stamps, clock)
    ensures Stamped(stamps - {x}, clock)
  {
  }

  lemma EnteredIndex(s: Sessions, x: Session, p: Preparation)
    requires IndexExact(s) && x !in s.sessions
    ensures IndexExact(WithSession(s, x, p))
  {
    var t := WithSession(s, x, p);
    if p.root !in s.roots { assert SessionsOf(s.sessions, p.root) == {}; }
    assert SessionsOf(t.sessions, p.root) == SessionsOf(s.sessions, p.root) + {x};
    forall r | r in t.roots ensures t.roots[r] == SessionsOf(t.sessions, r) && t.roots[r] != {} {
      if r != p.root { assert SessionsOf(t.sessions, r) == SessionsOf(s.sessions, r); }
    }
  }

  lemma EnteredKept(s: Sessions, x: Session, p: Preparation)
    requires Kept(s) && x !in s.sessions
    ensures Kept(WithSession(s, x, p)) && |WithSession(s, x, p).sessions| == |s.sessions| + 1
  {
    hide IndexExact, Stamped, Metadata, AccessTimes;
    EnteredMaps(s, x, p);
    TotalUpdated(Metadata(s.sessions), x, p.metadataBytes);
    StampedAnew(AccessTimes(s.sessions), s.clock, x);
    OneMoreKey(s.sessions, x, p.(lastAccess := s.clock + 1));
    EnteredIndex(s, x, p);
  }

  lemma EnteredMaps(s: Sessions, x: Session, p: Preparation)
    requires x !in s.sessions
    ensures x !in Metadata(s.sessions)
    ensures Metadata(WithSession(s, x, p).sessions) == Metadata(s.sessions)[x := p.metadataBytes]
    ensures AccessTimes(WithSession(s, x, p).sessions) == AccessTimes(s.sessions)[x := s.clock + 1]
  {
  }

  lemma LookedKept(s: Sessions, x: Session)
    requires Kept(s)
    ensures Kept(Looked(s, x)) && Looked(s, x).sessions.Keys == s.sessions.Keys
  {
    hide IndexExact, Stamped, Metadata, AccessTimes;
    LookedMaps(s, x);
    LookedIndex(s, x);
    StampedAnew(AccessTimes(s.sessions), s.clock, x);
    LaterClock(AccessTimes(s.sessions), s.clock);
  }

  lemma LaterClock(stamps: map<Session, nat>, clock: nat)
    requires Stamped(stamps, clock)
    ensures Stamped(stamps, clock + 1)
  {
  }

  lemma LookedMaps(s: Sessions, x: Session)
    ensures Metadata(Looked(s, x).sessions) == Metadata(s.sessions) && Looked(s, x).sessions.Keys == s.sessions.Keys
    ensures AccessTimes(Looked(s, x).sessions)
            == if x in s.sessions then AccessTimes(s.sessions)[x := s.clock + 1] else AccessTimes(s.sessions)
  {
  }

  lemma LookedIndex(s: Sessions, x: Session)
    requires IndexExact(s)
    ensures IndexExact(Looked(s, x))
  {
    var t := Looked(s, x);
    forall r | r in t.roots ensures t.roots[r] == SessionsOf(t.sessions, r) && t.roots[r] != {} {
      assert SessionsOf(t.sessions, r) == SessionsOf(s.sessions, r);
    }
  }

  // ---- Evicting ----

  predicate NewestSession(s: Sessions, gone: set<Session>, last: Session)
    requires gone <= s.sessions.Keys && last in gone
  {
    forall x :: x in gone ==> s.sessions[x].lastAccess <= s.sessions[last].lastAccess
  }

  predicate RoomWasMissing(before: Sessions, after: Sessions, last: Session, bytes: nat, entries: nat, limits: Limits)
    requires last in before.sessions
  {
    || after.bytes + before.sessions[last].metadataBytes + bytes > limits.bytes
    || |after.sessions| + 1 + entries > limits.entries
  }

  /** Of the sessions not spared exactly the least recently used are gone, and no more than needed. */
  ghost predicate Dropped(before: Sessions, after: Sessions, bytes: nat, entries: nat, spared: set<Session>, limits: Limits, last: Option<Session>) {
    var gone := before.sessions.Keys - after.sessions.Keys;
    && Stamped(AccessTimes(before.sessions), before.clock)
    && after.clock == before.clock && after.sessions == before.sessions - gone
    && Cut(AccessTimes(before.sessions), before.sessions.Keys - spared, gone)
    && (gone != {} ==>
          && last.Some? && last.value in gone && NewestSession(before, gone, last.value)
          && RoomWasMissing(before, after, last.value, bytes, entries, limits))
  }

  /** Every other session was used before this one. */
  predicate LastUsed(sessions: map<Session, Preparation>, x: Session)
    requires x in sessions
  {
    forall y :: y in sessions && y != x ==> sessions[y].lastAccess < sessions[x].lastAccess
  }

  lemma StampedLast(s: Sessions, x: Session, p: Preparation)
    requires Kept(s)
    ensures LastUsed(s.sessions[x := p.(lastAccess := s.clock + 1)], x)
  {
    forall y | y in s.sessions ensures s.sessions[y].lastAccess <= s.clock {
      assert AccessTimes(s.sessions)[y] <= s.clock;
    }
  }

  lemma LookedLast(s: Sessions, x: Session)
    requires Kept(s)
    ensures x in s.sessions ==> LastUsed(Looked(s, x).sessions, x)
  {
    if x in s.sessions { StampedLast(s, x, s.sessions[x]); }
  }

  // The session used last goes only when nothing else that is not spared stays.
  lemma LastUsedGoesLast(before: Sessions, after: Sessions, bytes: nat, entries: nat, spared: set<Session>, limits: Limits,
                         last: Option<Session>, x: Session)
    requires Dropped(before, after, bytes, entries, spared, limits, last)
    requires x in before.sessions && LastUsed(before.sessions, x) && x !in after.sessions
    ensures after.sessions.Keys <= spared
  {
    var candidates := before.sessions.Keys - spared;
    NewestGoesLast(AccessTimes(before.sessions), candidates, before.sessions.Keys - after.sessions.Keys, x);
    hide Cut, AccessTimes;
    assert before.sessions.Keys - after.sessions.Keys == candidates;
  }

  lemma StartDropping(s: Sessions, bytes: nat, entries: nat, spared: set<Session>, limits: Limits)
    requires Kept(s)
    ensures Dropped(s, s, bytes, entries, spared, limits, None)
  {
    assert s.sessions.Keys - s.sessions.Keys == {};
    assert s.sessions - {} == s.sessions;
  }

  lemma DropOne(before: Sessions, now: Sessions, next: Sessions, bytes: nat, entries: nat, spared: set<Session>, limits: Limits,
                last: Option<Session>, oldest: Session)
    requires Dropped(before, now, bytes, entries, spared, limits, last) && !HasRoom(now, bytes, entries, limits)
    requires oldest in now.sessions.Keys - spared
    requires forall x :: x in now.sessions.Keys - spared ==> AccessTimes(now.sessions)[oldest] <= AccessTimes(now.sessions)[x]
    requires next.sessions == now.sessions - {oldest} && next.clock == now.clock
    requires next.bytes + now.sessions[oldest].metadataBytes == now.bytes
    ensures Dropped(before, next, bytes, entries, spared, limits, Some(oldest))
  {
    OldestIsCut(before, now, bytes, entries, spared, limits, last, oldest);
    WasMissing(before, now, next, bytes, entries, limits, oldest);
    OneMoreGone(before.sessions, now.sessions, oldest);
    hide Cut, NewestSession, Stamped, RoomWasMissing, HasRoom;
  }

  lemma OldestIsCut(before: Sessions, now: Sessions, bytes: nat, entries: nat, spared: set<Session>, limits: Limits,
                    last: Option<Session>, oldest: Session)
    requires Dropped(before, now, bytes, entries, spared, limits, last) && oldest in now.sessions.Keys - spared
    requires forall x :: x in now.sessions.Keys - spared ==> AccessTimes(now.sessions)[oldest] <= AccessTimes(now.sessions)[x]
    ensures var gone := before.sessions.Keys - now.sessions.Keys + {oldest};
            && Cut(AccessTimes(before.sessions), before.sessions.Keys - spared, gone)
            && NewestSession(before, gone, oldest) && before.sessions[oldest] == now.sessions[oldest]
  {
    hide RoomWasMissing;
    var gone, candidates := before.sessions.Keys - now.sessions.Keys, before.sessions.Keys - spared;
    assert candidates - gone == now.sessions.Keys - spared;
    CutExtends(AccessTimes(before.sessions), candidates, gone, oldest, before.clock);
  }

  lemma WasMissing(before: Sessions, now: Sessions, next: Sessions, bytes: nat, entries: nat, limits: Limits, oldest: Session)
    requires !HasRoom(now, bytes, entries, limits)
    requires oldest in now.sessions && oldest in before.sessions && before.sessions[oldest] == now.sessions[oldest]
    requires next.sessions == now.sessions - {oldest} && next.bytes + now.sessions[oldest].metadataBytes == now.bytes
    ensures RoomWasMissing(before, next, oldest, bytes, entries, limits)
  {
    OneLessKey(now.sessions, oldest);
  }

  // With only the protected session left, whatever fits an empty cache fits beside what it replaces.
  lemma AloneThereIsRoom(s: Sessions, metadataBytes: nat, protected: Session, limits: Limits)
    requires Kept(s) && s.sessions.Keys <= {protected} && metadataBytes <= limits.bytes && limits.entries > 0 && s.bytes <= limits.bytes
    ensures HasRoom(s, Additional(s, metadataBytes, protected), if protected in s.sessions then 0 else 1, limits)
  {
    if protected in s.sessions {
      assert s.sessions.Keys == {protected};
      assert |s.sessions.Keys| == |s.sessions|;
      TotalRemoved(Metadata(s.sessions), protected);
      assert Metadata(s.sessions) - {protected} == map[];
    } else {
      assert s.sessions == map[];
      assert Metadata(s.sessions) == map[];
    }
  }

  /** What a preparation adds beyond the one it replaces. */
  function Additional(s: Sessions, metadataBytes: nat, session: Session): nat {
    var prior := if session in s.sessions then s.sessions[session].metadataBytes else 0;
    if metadataBytes <= prior then 0 else metadataBytes - prior
  }

  // ---- The store ----

  class PreparationStore {
    var sessions: map<Session, Preparation>
    var rootSessions: map<Root, set<Session>>
    var preparationBytes: nat
    var accessClock: nat
    const limits: Limits

    constructor (limits: Limits)
      ensures Valid() && View() == Sessions(map[], map[], 0, 0) && this.limits == limits
    {
      this.limits := limits;
      sessions := map[];
      rootSessions := map[];
      preparationBytes := 0;
      accessClock := 0;
      new;
      assert Metadata(map[]) == map[];
    }

    ghost function View(): Sessions
      reads this
    {
      Sessions(sessions, rootSessions, preparationBytes, accessClock)
    }

    ghost predicate Valid()
      reads this
    {
      Kept(View()) && preparationBytes <= limits.bytes && |sessions| <= limits.entries
    }

    method Get(x: Session) returns (p: Option<Preparation>)
      requires Valid()
      modifies this
      ensures Valid() && View() == Looked(old(View()), x)
      ensures p.Some? <==> x in old(sessions)
      ensures p.Some? ==> p.value == sessions[x]
      ensures sessions.Keys == old(sessions).Keys && accessClock == old(accessClock) + 1
      ensures rootSessions == old(rootSessions) && preparationBytes == old(preparationBytes)
      ensures forall y :: y in sessions && y != x ==> sessions[y] == old(sessions)[y]
      ensures x in sessions ==> sessions[x] == old(sessions)[x].(lastAccess := accessClock) && LastUsed(sessions, x)
    {
      hide Kept, LastUsed;
      LookedKept(View(), x);
      LookedLast(View(), x);
      accessClock := accessClock + 1;
      if x !in sessions { return None; }
      ghost var keys := sessions.Keys;
      sessions := sessions[x := sessions[x].(lastAccess := accessClock)];
      assert sessions.Keys == keys;
      assert |sessions.Keys| == |sessions| && |keys| == |old(sessions)|;
      return Some(sessions[x]);
    }

    method RemoveSession(x: Session)
      requires Valid()
      modifies this
      ensures Valid()
      ensures x !in old(sessions) ==> View() == old(View())
      ensures x in old(sessions) ==>
                old(sessions)[x].metadataBytes <= old(preparationBytes) && View() == WithoutSession(old(View()), x)
      ensures x in old(sessions) ==> sessions == old(sessions) - {x}
    {
      hide Kept, RootsWithout;
      if x !in sessions { return; }
      RemovedKept(View(), x);
      ghost var after := WithoutSession(View(), x);
      var gone := sessions[x];
      DropFromRoot(gone.root, x);
      sessions := sessions - {x};
      preparationBytes := preparationBytes - gone.metadataBytes;
      assert View() == after;
    }

    method DropFromRoot(root: Root, x: Session)
      modifies this`rootSessions
      ensures rootSessions == RootsWithout(old(rootSessions), root, x)
    {
      if root in rootSessions {
        var left := rootSessions[root] - {x};
        if left == {} { rootSessions := rootSessions - {root}; } else { rootSessions := rootSessions[root := left]; }
      }
    }

    /** Evicts until there is room. With the room an install asks for, it always succeeds. */
    method EvictPreparationsToFit(bytes: nat, extra: nat, protected: Session) returns (ok: bool, ghost last: Option<Session>)
      requires Valid()
      modifies this
      ensures Valid() && Dropped(old(View()), View(), bytes, extra, {protected}, limits, last)
      ensures ok ==> HasRoom(View(), bytes, extra, limits)
      ensures !ok ==> !HasRoom(View(), bytes, extra, limits) && sessions.Keys <= {protected}
    {
      hide Kept, Dropped, RootsWithout;
      ghost var before, spared := View(), {protected};
      last := None;
      StartDropping(before, bytes, extra, spared, limits);
      while true
        invariant Valid() && Dropped(before, View(), bytes, extra, spared, limits, last)
        decreases |sessions|
      {
        if preparationBytes + bytes <= limits.bytes && |sessions| + extra <= limits.entries { return true, last; }
        var candidates := sessions.Keys - {protected};
        if candidates == {} { return false, last; }
        var oldest := Oldest(AccessTimes(sessions), candidates);
        RemovedKept(View(), oldest);
        ghost var now := View();
        OneLessKey(sessions, oldest);
        RemoveSession(oldest);
        DropOne(before, now, View(), bytes, extra, spared, limits, last, oldest);
        last := Some(oldest);
      }
    }

    method Enter(x: Session, p: Preparation)
      requires Valid() && x !in sessions && HasRoom(View(), p.metadataBytes, 1, limits)
      modifies this
      ensures Valid() && View() == WithSession(old(View()), x, p)
      ensures x in sessions && LastUsed(sessions, x)
    {
      hide Kept, LastUsed;
      StampedLast(View(), x, p);
      EnteredKept(View(), x, p);
      accessClock := accessClock + 1;
      preparationBytes := preparationBytes + p.metadataBytes;
      sessions := sessions[x := p.(lastAccess := accessClock)];
      rootSessions := rootSessions[p.root := (if p.root in rootSessions then rootSessions[p.root] else {}) + {x}];
    }

    /** Drops at most `limit` preparations of a root; complete exactly when none is left. */
    method PurgeRootPage(root: Root, limit: nat) returns (complete: bool, ghost page: set<Session>)
      requires Valid()
      modifies this
      ensures Valid()
      ensures page <= SessionsOf(old(sessions), root) && sessions == old(sessions) - page
      ensures |page| == if limit <= |SessionsOf(old(sessions), root)| then limit else |SessionsOf(old(sessions), root)|
      ensures complete <==> SessionsOf(sessions, root) == {}
      ensures complete <==> |SessionsOf(old(sessions), root)| <= limit
    {
      hide Kept, SessionsOf;
      ghost var before := View();
      RootEntry(before, root);
      var left := if root in rootSessions then rootSessions[root] else {};
      page := RemoveUpTo(left, limit);
      Remaining(before.sessions, page, root);
      RootEntry(View(), root);
      complete := root !in rootSessions || rootSessions[root] == {};
      if complete { rootSessions := rootSessions - {root}; }
    }

    /** Removes some of these sessions, up to a limit. */
    method RemoveUpTo(all: set<Session>, limit: nat) returns (ghost page: set<Session>)
      requires Valid() && all <= sessions.Keys
      modifies this
      ensures Valid() && page <= all && sessions == old(sessions) - page
      ensures |page| == if limit <= |all| then limit else |all|
    {
      hide Kept, RootsWithout, WithoutSession;
      var left, taken := all, 0;
      page := {};
      NoneGone(sessions);
      while taken < limit && left != {}
        invariant Valid() && taken == |page| <= limit && page !! left && page + left == all
        invariant sessions == old(sessions) - page
        decreases |left|
      {
        var x :| x in left;
        RemoveSession(x);
        GoneTogether(old(sessions), page, x);
        page := page + {x};
        left := left - {x};
        taken := taken + 1;
      }
      assert |page + left| == |page| + |left|;
    }
  }

  lemma NoneGone(sessions: map<Session, Preparation>)
    ensures sessions - {} == sessions
  {
  }

  lemma GoneTogether(sessions: map<Session, Preparation>, page: set<Session>, x: Session)
    ensures sessions - page - {x} == sessions - (page + {x})
  {
  }

  lemma Remaining(sessions: map<Session, Preparation>, page: set<Session>, root: Root)
    requires page <= SessionsOf(sessions, root)
    ensures SessionsOf(sessions - page, root) == SessionsOf(sessions, root) - page
    ensures |SessionsOf(sessions, root) - page| == |SessionsOf(sessions, root)| - |page|
  {
    assert SessionsOf(sessions, root) == page + (SessionsOf(sessions, root) - page);
  }

  // The index answers for a root exactly its sessions.
  lemma RootEntry(s: Sessions, root: Root)
    requires Kept(s)
    ensures SessionsOf(s.sessions, root) <= s.sessions.Keys
    ensures (if root in s.roots then s.roots[root] else {}) == SessionsOf(s.sessions, root)
    ensures root !in s.roots ==> s.roots - {root} == s.roots
    ensures root in s.roots ==> s.roots[root] != {}
  {
    if root !in s.roots { assert SessionsOf(s.sessions, root) == {}; }
  }
}
