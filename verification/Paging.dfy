/** Cursor pagination over a scan, and what following the cursors to the end yields
    (crates/hand-core/src/page.rs:17-24, crates/hand-core/src/materialization/memory.rs:274-293,
    crates/hand-core/src/files.rs:108-136, 392-407). */
module Paging {
  import opened Wrappers
  import opened RecordCodec

  const MAX_PAGE: nat := 100

  // ---- Byte-wise string order ----

  predicate Less(a: Text, b: Text) {
    b != [] && (a == [] || a[0] < b[0] || (a[0] == b[0] && Less(a[1..], b[1..])))
  }

  lemma {:induction false} LessIsTotal(a: Text, b: Text)
    ensures a == b || Less(a, b) || Less(b, a)
    ensures Less(a, b) ==> !Less(b, a) && a != b
  {
    if a != [] && b != [] && a[0] == b[0] {
      LessIsTotal(a[1..], b[1..]);
      assert a == [a[0]] + a[1..] && b == [b[0]] + b[1..];
    }
  }

  lemma {:induction false} LessIsTransitive(a: Text, b: Text, c: Text)
    requires Less(a, b) && Less(b, c)
    ensures Less(a, c)
  {
    if a != [] && a[0] == b[0] && b[0] == c[0] { LessIsTransitive(a[1..], b[1..], c[1..]); }
  }

  lemma {:induction false} LessAfterPrefix(p: Text, a: Text, b: Text)
    ensures Less(p + a, p + b) <==> Less(a, b)
  {
    if p == [] {
      assert p + a == a && p + b == b;
    } else {
      assert (p + a)[1..] == p[1..] + a && (p + b)[1..] == p[1..] + b;
      LessAfterPrefix(p[1..], a, b);
    }
  }

  // ---- Pages ----

  datatype Item<T> = Item(identity: Text, value: T)

  datatype Page<T> = Page(items: seq<Item<T>>, next: Option<Text>)

  /** What stays past the cursor, in scan order. */
  function Past<T>(items: seq<Item<T>>, cursor: Text): (past: seq<Item<T>>)
    ensures |past| <= |items|
  {
    if items == [] then []
    else (if Less(cursor, items[0].identity) then [items[0]] else []) + Past(items[1..], cursor)
  }

  function Remaining<T>(items: seq<Item<T>>, cursor: Option<Text>): seq<Item<T>> {
    if cursor.None? then items else Past(items, cursor.value)
  }

  function PageOf<T>(items: seq<Item<T>>, limit: nat): Page<T>
    requires limit > 0
  {
    if |items| > limit then Page(items[..limit], Some(items[limit - 1].identity)) else Page(items, None)
  }

  lemma {:induction false} PastSplits<T>(a: seq<Item<T>>, b: seq<Item<T>>, cursor: Text)
    ensures Past(a + b, cursor) == Past(a, cursor) + Past(b, cursor)
  {
    if a == [] {
      assert a + b == b;
    } else {
      assert (a + b)[1..] == a[1..] + b;
      PastSplits(a[1..], b, cursor);
      var head := if Less(cursor, a[0].identity) then [a[0]] else [];
      hide Less;
      assert Past(a + b, cursor) == head + (Past(a[1..], cursor) + Past(b, cursor));
      assert Past(a, cursor) == head + Past(a[1..], cursor);
    }
  }

  /** Cuts an over-fetched scan to one page. */
  method CutPage<T>(items: seq<Item<T>>, limit: nat) returns (page: Page<T>)
    requires limit > 0
    ensures page == PageOf(items, limit)
  {
    var kept, next := items, None;
    if |kept| > limit { next := Some(kept[limit - 1].identity); }
    if |kept| > limit { kept := kept[..limit]; }
    return Page(kept, next);
  }

  /** One call: scan past the cursor, stop one item over the limit, cut. */
  method FetchPage<T>(items: seq<Item<T>>, cursor: Option<Text>, limit: nat) returns (page: Page<T>)
    requires limit > 0
    ensures page == PageOf(Remaining(items, cursor), limit)
  {
    var projected: seq<Item<T>> := [];
    var i := 0;
    while i < |items| && |projected| <= limit
      invariant i <= |items| && projected == Remaining(items[..i], cursor)
    {
      OneMoreScanned(items, i, cursor);
      if cursor.None? || Less(cursor.value, items[i].identity) {
        projected := projected + [items[i]];
      }
      i := i + 1;
    }
    EnoughScanned(items, i, cursor, limit);
    page := CutPage(projected, limit);
  }

  lemma OneMoreScanned<T>(items: seq<Item<T>>, i: nat, cursor: Option<Text>)
    requires i < |items|
    ensures Remaining(items[..i + 1], cursor)
            == Remaining(items[..i], cursor) + (if cursor.None? || Less(cursor.value, items[i].identity) then [items[i]] else [])
  {
    assert items[..i + 1] == items[..i] + [items[i]];
    if cursor.Some? {
      PastSplits(items[..i], [items[i]], cursor.value);
      assert [items[i]][1..] == [];
    }
  }

  lemma EnoughScanned<T>(items: seq<Item<T>>, i: nat, cursor: Option<Text>, limit: nat)
    requires i <= |items| && limit > 0 && (i == |items| || |Remaining(items[..i], cursor)| > limit)
    ensures PageOf(Remaining(items[..i], cursor), limit) == PageOf(Remaining(items, cursor), limit)
  {
    hide Past, PageOf;
    if i == |items| {
      assert items[..i] == items;
    } else {
      assert items == items[..i] + items[i..];
      if cursor.Some? { PastSplits(items[..i], items[i..], cursor.value); }
      PageOfPrefix(Remaining(items[..i], cursor), Remaining(items[i..], cursor), limit);
    }
  }

  lemma PageOfPrefix<T>(a: seq<Item<T>>, b: seq<Item<T>>, limit: nat)
    requires |a| > limit > 0
    ensures PageOf(a + b, limit) == PageOf(a, limit)
  {
    assert (a + b)[..limit] == a[..limit];
  }

  // ---- Following the cursors ----

  /** All pages of an unchanged store, from `cursor` on. */
  function FollowFrom<T>(items: seq<Item<T>>, cursor: Option<Text>, limit: nat): seq<Item<T>>
    requires limit > 0
    decreases |Remaining(items, cursor)|
  {
    var page := PageOf(Remaining(items, cursor), limit);
    if page.next.None? then page.items
    else
      CursorAdvances(items, cursor, limit);
      page.items + FollowFrom(items, page.next, limit)
  }

  lemma {:induction false} PastIsPast<T>(items: seq<Item<T>>, cursor: Text, i: nat)
    requires i < |Past(items, cursor)|
    ensures Less(cursor, Past(items, cursor)[i].identity)
  {
    var head := if Less(cursor, items[0].identity) then [items[0]] else [];
    if i >= |head| { PastIsPast(items[1..], cursor, i - |head|); }
  }

  // A later cursor sees what it would see of the earlier cursor's view.
  lemma {:induction false} PastOfPast<T>(items: seq<Item<T>>, cursor: Text, later: Text)
    requires Less(cursor, later)
    ensures Past(Past(items, cursor), later) == Past(items, later)
  {
    if items != [] {
      PastOfPast(items[1..], cursor, later);
      if Less(cursor, items[0].identity) {
        PastSplits([items[0]], Past(items[1..], cursor), later);
        assert [items[0]][1..] == [];
        assert Past([items[0]], later) == if Less(later, items[0].identity) then [items[0]] else [];
      } else {
        assert !Less(later, items[0].identity) by {
          if Less(later, items[0].identity) { LessIsTransitive(cursor, later, items[0].identity); }
        }
        assert Past(items, cursor) == Past(items[1..], cursor);
        assert Past(items, later) == Past(items[1..], later);
      }
    }
  }

  // Past the identity of one of its items a scan is strictly shorter.
  lemma {:induction false} PastAnItemIsShorter<T>(items: seq<Item<T>>, i: nat)
    requires i < |items|
    ensures |Past(items, items[i].identity)| < |items|
  {
    if i == 0 {
      LessIsTotal(items[0].identity, items[0].identity);
    } else {
      PastAnItemIsShorter(items[1..], i - 1);
    }
  }

  lemma CursorAdvances<T>(items: seq<Item<T>>, cursor: Option<Text>, limit: nat)
    requires limit > 0 && |Remaining(items, cursor)| > limit
    ensures var left := Remaining(items, cursor);
            && Past(items, left[limit - 1].identity) == Past(left, left[limit - 1].identity)
            && |Past(items, left[limit - 1].identity)| < |left|
  {
    var left := Remaining(items, cursor);
    if cursor.Some? {
      PastIsPast(items, cursor.value, limit - 1);
      PastOfPast(items, cursor.value, left[limit - 1].identity);
    }
    PastAnItemIsShorter(left, limit - 1);
  }

  /** The same walk, each page taken of what the previous one left. */
  function Follow<T>(items: seq<Item<T>>, limit: nat): (all: seq<Item<T>>)
    requires limit > 0
    decreases |items|
  {
    if |items| <= limit then items
    else
      PastAnItemIsShorter(items, limit - 1);
      items[..limit] + Follow(Past(items, items[limit - 1].identity), limit)
  }

  lemma {:induction false} FollowsAreOne<T>(items: seq<Item<T>>, cursor: Option<Text>, limit: nat)
    requires limit > 0
    ensures FollowFrom(items, cursor, limit) == Follow(Remaining(items, cursor), limit)
    decreases |Remaining(items, cursor)|
  {
    var left := Remaining(items, cursor);
    if |left| > limit {
      CursorAdvances(items, cursor, limit);
      FollowsAreOne(items, Some(left[limit - 1].identity), limit);
    }
  }

  // ---- When nothing is skipped or repeated ----

  /** No item is scanned twice. Two items may still share an identity. */
  ghost predicate Distinct<T>(items: seq<Item<T>>) {
    forall i, j :: 0 <= i < j < |items| ==> items[i] != items[j]
  }

  predicate Increasing<T>(items: seq<Item<T>>) {
    forall i, j :: 0 <= i < j < |items| ==> Less(items[i].identity, items[j].identity)
  }

  /** Position `m` separates the scan: nothing before it is past its last item, everything after it is. */
  predicate SplitsAt<T>(items: seq<Item<T>>, m: nat)
    requires 0 < m <= |items|
  {
    && (forall i :: 0 <= i < m ==> !Less(items[m - 1].identity, items[i].identity))
    && (forall i :: m <= i < |items| ==> Less(items[m - 1].identity, items[i].identity))
  }

  /** Every page boundary separates the scan. */
  predicate Splits<T>(items: seq<Item<T>>, limit: nat)
    requires limit > 0
    decreases |items|
  {
    |items| > limit ==> SplitsAt(items, limit) && Splits(items[limit..], limit)
  }

  lemma {:induction false} NonePast<T>(items: seq<Item<T>>, cursor: Text)
    requires forall x :: x in items ==> !Less(cursor, x.identity)
    ensures Past(items, cursor) == []
  {
    if items != [] { NonePast(items[1..], cursor); }
  }

  lemma {:induction false} AllPast<T>(items: seq<Item<T>>, cursor: Text)
    requires forall x :: x in items ==> Less(cursor, x.identity)
    ensures Past(items, cursor) == items
  {
    if items != [] { AllPast(items[1..], cursor); }
  }

  lemma {:induction false} PastMembers<T>(items: seq<Item<T>>, cursor: Text)
    ensures forall x :: x in Past(items, cursor) <==> x in items && Less(cursor, x.identity)
  {
    if items != [] { PastMembers(items[1..], cursor); }
  }

  // At a boundary that separates the scan, the next page starts exactly behind it.
  lemma SplitGivesRest<T>(items: seq<Item<T>>, m: nat)
    requires 0 < m <= |items| && SplitsAt(items, m)
    ensures Past(items, items[m - 1].identity) == items[m..]
  {
    var c := items[m - 1].identity;
    assert items == items[..m] + items[m..];
    PastSplits(items[..m], items[m..], c);
    NonePast(items[..m], c);
    AllPast(items[m..], c);
  }

  // Only such a boundary does: with no item twice, a walk that continues behind it found it separating.
  lemma RestGivesSplit<T>(items: seq<Item<T>>, m: nat, walked: seq<Item<T>>)
    requires 0 < m < |items| && Distinct(items) && walked == items[m..]
    requires forall x :: x in walked ==> x in Past(items, items[m - 1].identity)
    requires Past(items, items[m - 1].identity) != [] && Past(items, items[m - 1].identity)[0] == walked[0]
    ensures SplitsAt(items, m)
  {
    hide Past, Less, Distinct;
    var c := items[m - 1].identity;
    assert items == items[..m] + items[m..];
    PastSplits(items[..m], items[m..], c);
    NoEarly(items, m, Past(items[..m], c), Past(items[m..], c), c);
    EarlyNotPast(items, m, c);
    PastMembers(items, c);
    LateIsPast(items, m, c);
  }

  lemma NoEarly<T>(items: seq<Item<T>>, m: nat, early: seq<Item<T>>, late: seq<Item<T>>, c: Text)
    requires m < |items| && Distinct(items) && early == Past(items[..m], c)
    requires early + late != [] && (early + late)[0] == items[m]
    ensures early == []
  {
    hide Past, Less, Distinct;
    PastMembers(items[..m], c);
    if early != [] {
      assert early[0] in early && early[0] == items[m];
      SameItemTwice(items, m, items[m]);
    }
  }

  lemma EarlyNotPast<T>(items: seq<Item<T>>, m: nat, c: Text)
    requires m <= |items| && Past(items[..m], c) == []
    ensures forall i :: 0 <= i < m ==> !Less(c, items[i].identity)
  {
    hide Past, Less;
    PastMembers(items[..m], c);
    forall i | 0 <= i < m ensures !Less(c, items[i].identity) { assert items[..m][i] in items[..m]; }
  }

  lemma LateIsPast<T>(items: seq<Item<T>>, m: nat, c: Text)
    requires m <= |items| && forall x :: x in items[m..] ==> Less(c, x.identity)
    ensures forall i :: m <= i < |items| ==> Less(c, items[i].identity)
  {
    hide Less;
    forall i | m <= i < |items| ensures Less(c, items[i].identity) { assert items[m..][i - m] in items[m..]; }
  }

  lemma SameItemTwice<T>(items: seq<Item<T>>, m: nat, x: Item<T>)
    requires m < |items| && items[m] == x && x in items[..m]
    ensures !Distinct(items)
  {
    var k :| 0 <= k < m && items[..m][k] == x;
    assert items[k] == items[m];
  }

  lemma {:induction false} FollowWalks<T>(items: seq<Item<T>>, limit: nat)
    requires limit > 0
    ensures forall x :: x in Follow(items, limit) ==> x in items
    ensures items != [] ==> Follow(items, limit) != [] && Follow(items, limit)[0] == items[0]
    decreases |items|
  {
    if |items| > limit {
      var rest := Past(items, items[limit - 1].identity);
      PastAnItemIsShorter(items, limit - 1);
      FollowWalks(rest, limit);
      PastMembers(items, items[limit - 1].identity);
      forall x | x in Follow(items, limit) ensures x in items {
        if x !in items[..limit] { assert x in Follow(rest, limit); }
      }
    }
  }

  lemma DistinctRest<T>(items: seq<Item<T>>, m: nat)
    requires Distinct(items) && m <= |items|
    ensures Distinct(items[m..])
  {
  }

  // Over an unchanged store that scans no item twice, following the cursors yields every item exactly once, in
  // scan order, exactly when every page boundary separates the scan.
  lemma {:induction false} FollowIsExactIff<T>(items: seq<Item<T>>, limit: nat)
    requires limit > 0 && Distinct(items)
    ensures Follow(items, limit) == items <==> Splits(items, limit)
    decreases |items|
  {
    if |items| > limit {
      var c, tail := items[limit - 1].identity, items[limit..];
      PastAnItemIsShorter(items, limit - 1);
      DistinctRest(items, limit);
      FollowIsExactIff(tail, limit);
      assert items == items[..limit] + tail;
      if SplitsAt(items, limit) {
        SplitGivesRest(items, limit);
      } else if Follow(items, limit) == items {
        var rest := Past(items, c);
        assert Follow(rest, limit) == Follow(items, limit)[limit..] == tail;
        FollowWalks(rest, limit);
        RestGivesSplit(items, limit, tail);
      }
    }
  }

  lemma {:induction false} IncreasingSplits<T>(items: seq<Item<T>>, limit: nat)
    requires limit > 0 && Increasing(items)
    ensures Splits(items, limit) && Distinct(items)
    decreases |items|
  {
    forall i, j | 0 <= i < j < |items| ensures items[i] != items[j] {
      LessIsTotal(items[i].identity, items[j].identity);
    }
    if |items| > limit {
      forall i | 0 <= i < limit ensures !Less(items[limit - 1].identity, items[i].identity) {
        LessIsTotal(items[i].identity, items[limit - 1].identity);
      }
      assert forall i :: limit <= i < |items| ==> Less(items[limit - 1].identity, items[i].identity);
      IncreasingSplits(items[limit..], limit);
    }
  }

  lemma {:induction false} SinglePagesIncrease<T>(items: seq<Item<T>>)
    requires Splits(items, 1)
    ensures Increasing(items)
    decreases |items|
  {
    if |items| > 1 {
      SinglePagesIncrease(items[1..]);
      forall i, j | 0 <= i < j < |items| ensures Less(items[i].identity, items[j].identity) {
        if i > 0 { assert items[i] == items[1..][i - 1] && items[j] == items[1..][j - 1]; }
      }
    }
  }

  // For page size one the scan must be strictly increasing; then every page size is exact.
  lemma SinglePagesIff<T>(items: seq<Item<T>>)
    ensures Splits(items, 1) <==> Increasing(items)
  {
    hide Splits, Increasing;
    if Increasing(items) { IncreasingSplits(items, 1); }
    if Splits(items, 1) { SinglePagesIncrease(items); }
  }

  // Following `next_cursor` to the end yields every item exactly once, in order.
  lemma IncreasingIsExact<T>(items: seq<Item<T>>, limit: nat)
    requires limit > 0 && Increasing(items)
    ensures FollowFrom(items, None, limit) == items
  {
    FollowsAreOne(items, None, limit);
    IncreasingSplits(items, limit);
    FollowIsExactIff(items, limit);
  }
}
