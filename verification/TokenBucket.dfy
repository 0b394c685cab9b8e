/** Control-plane pacing: the virtual-scheduling form of the generic cell rate algorithm, Annex A of ITU-T I.371
    (crates/hand-lambda/src/control.rs:219-251). Instants count from the earliest representable one. */
module TokenBuckets {
  import opened Wrappers

  const NANOS_PER_SECOND: nat := 1_000_000_000

  type Instant = nat

  datatype Bucket = Bucket(interval: nat, burst: nat, theoreticalArrival: Option<Instant>)

  datatype Reservation = Reservation(admittedAt: Instant, after: Bucket)

  function Max(a: nat, b: nat): nat { if a <= b then b else a }

  function Tolerance(b: Bucket): nat {
    if b.burst == 0 then 0 else b.interval * (b.burst - 1)
  }

  function Reserve(b: Bucket, now: Instant): Reservation {
    var prior := if b.theoreticalArrival.Some? then b.theoreticalArrival.value else now;
    var earliest := if Tolerance(b) <= prior then prior - Tolerance(b) else now;
    var admittedAt := Max(earliest, now);
    Reservation(admittedAt, b.(theoreticalArrival := Some(Max(prior, admittedAt) + b.interval)))
  }

  class TokenBucket {
    const interval: nat
    const burst: nat
    var theoreticalArrival: Option<Instant>

    constructor (ratePerSecond: nat, burst: nat)
      requires ratePerSecond > 0 && burst > 0
      ensures View() == Bucket(NANOS_PER_SECOND / ratePerSecond, burst, None)
    {
      this.interval := NANOS_PER_SECOND / ratePerSecond;
      this.burst := burst;
      this.theoreticalArrival := None;
    }

    ghost function View(): Bucket
      reads this
    {
      Bucket(interval, burst, theoreticalArrival)
    }

    /** How long the caller must wait before its control call. */
    method ReserveSlot(now: Instant) returns (delay: nat)
      modifies this
      ensures View() == Reserve(old(View()), now).after
      ensures now + delay == Reserve(old(View()), now).admittedAt
    {
      var prior := if theoreticalArrival.Some? then theoreticalArrival.value else now;
      var tolerance := if burst == 0 then 0 else interval * (burst - 1);
      var earliest := if tolerance <= prior then prior - tolerance else now;
      var admittedAt := if earliest <= now then now else earliest;
      theoreticalArrival := Some((if prior <= admittedAt then admittedAt else prior) + interval);
      return admittedAt - now;
    }
  }

  // ---- Sequences of calls, in the order in which they take the lock ----

  /** The bucket after the first `n` calls of a fresh one. */
  function After(interval: nat, burst: nat, arrivals: seq<Instant>, n: nat): (b: Bucket)
    requires n <= |arrivals|
    ensures b.interval == interval && b.burst == burst && (b.theoreticalArrival.Some? <==> n > 0)
  {
    if n == 0 then Bucket(interval, burst, None)
    else Reserve(After(interval, burst, arrivals, n - 1), arrivals[n - 1]).after
  }

  /** When call `i` is admitted. */
  function AdmittedAt(interval: nat, burst: nat, arrivals: seq<Instant>, i: nat): Instant
    requires i < |arrivals|
  {
    Reserve(After(interval, burst, arrivals, i), arrivals[i]).admittedAt
  }

  /** The theoretical arrival time in force when call `i` comes, for `i > 0`. */
  function Theoretical(interval: nat, burst: nat, arrivals: seq<Instant>, i: nat): Instant
    requires 0 < i <= |arrivals|
  {
    After(interval, burst, arrivals, i).theoreticalArrival.value
  }

  lemma NextTheoretical(interval: nat, burst: nat, arrivals: seq<Instant>, i: nat)
    requires i < |arrivals|
    ensures Theoretical(interval, burst, arrivals, i + 1) >= AdmittedAt(interval, burst, arrivals, i) + interval
    ensures i > 0 ==>
              Theoretical(interval, burst, arrivals, i + 1)
              == Max(Theoretical(interval, burst, arrivals, i), AdmittedAt(interval, burst, arrivals, i)) + interval
    ensures i == 0 ==> Theoretical(interval, burst, arrivals, 1) == AdmittedAt(interval, burst, arrivals, 0) + interval
  {
  }

  lemma {:induction false} TheoreticalGrows(interval: nat, burst: nat, arrivals: seq<Instant>, i: nat, j: nat)
    requires i < j <= |arrivals|
    ensures Theoretical(interval, burst, arrivals, j) >= AdmittedAt(interval, burst, arrivals, i) + (j - i) * interval
    decreases j
  {
    hide Reserve;
    if i + 1 == j {
      NextTheoretical(interval, burst, arrivals, i);
    } else {
      TheoreticalGrows(interval, burst, arrivals, i, j - 1);
      NextTheoretical(interval, burst, arrivals, j - 1);
      assert (j - i) * interval == (j - 1 - i) * interval + interval;
    }
  }

  lemma AdmissionIsEarliest(interval: nat, burst: nat, arrivals: seq<Instant>, i: nat)
    requires 0 < i < |arrivals| && burst > 0
    ensures var a, theory := AdmittedAt(interval, burst, arrivals, i), Theoretical(interval, burst, arrivals, i);
            && arrivals[i] <= a && theory <= a + interval * (burst - 1)
            && (arrivals[i] < a ==> theory == a + interval * (burst - 1))
  {
  }

  // For any arrivals at all: admission `j` comes at least (j - i + 1 - burst) intervals after admission `i`.
  lemma AdmissionsAreSpaced(interval: nat, burst: nat, arrivals: seq<Instant>, i: nat, j: nat)
    requires burst > 0 && i <= j < |arrivals|
    ensures AdmittedAt(interval, burst, arrivals, j) + burst * interval
            >= AdmittedAt(interval, burst, arrivals, i) + (j - i + 1) * interval
  {
    hide Reserve;
    assert burst * interval == interval * (burst - 1) + interval;
    if i < j {
      TheoreticalGrows(interval, burst, arrivals, i, j);
      AdmissionIsEarliest(interval, burst, arrivals, j);
      assert (j - i + 1) * interval == (j - i) * interval + interval;
    } else {
      assert (j - i + 1) * interval == interval;
      assert 0 <= interval * (burst - 1);
    }
  }

  // The wait is no longer than that spacing demands: a delayed call is admitted exactly when the spacing to some
  // earlier admission becomes right.
  lemma {:induction false} DelayIsTight(interval: nat, burst: nat, arrivals: seq<Instant>, j: nat) returns (i: nat)
    requires burst > 0 && j < |arrivals| && arrivals[j] < AdmittedAt(interval, burst, arrivals, j)
    ensures i < j
    ensures AdmittedAt(interval, burst, arrivals, j) + burst * interval == AdmittedAt(interval, burst, arrivals, i) + (j - i + 1) * interval
  {
    assert j > 0;
    hide Reserve;
    i := LastReset(interval, burst, arrivals, j);
    AdmissionIsEarliest(interval, burst, arrivals, j);
    assert (j - i + 1) * interval == (j - i) * interval + interval;
    assert burst * interval == interval * (burst - 1) + interval;
  }

  // The theoretical arrival time counts whole intervals from the last call that found the bucket full.
  lemma {:induction false} LastReset(interval: nat, burst: nat, arrivals: seq<Instant>, j: nat) returns (i: nat)
    requires 0 < j <= |arrivals|
    ensures i < j && Theoretical(interval, burst, arrivals, j) == AdmittedAt(interval, burst, arrivals, i) + (j - i) * interval
    decreases j
  {
    hide Reserve;
    NextTheoretical(interval, burst, arrivals, j - 1);
    if j == 1 || Theoretical(interval, burst, arrivals, j - 1) <= AdmittedAt(interval, burst, arrivals, j - 1) {
      i := j - 1;
    } else {
      i := LastReset(interval, burst, arrivals, j - 1);
      assert (j - i) * interval == (j - 1 - i) * interval + interval;
    }
  }

  // ---- A true sliding window ----

  lemma {:induction false} WithinRange(s: set<nat>, low: nat, high: nat)
    requires forall i :: i in s ==> low <= i <= high
    requires low <= high
    ensures |s| <= high - low + 1
    decreases high - low
  {
    if low == high {
      assert s <= {low};
      if s != {} { assert s == {low}; }
    } else {
      WithinRange(s - {high}, low, high - 1);
    }
  }

  lemma {:induction false} Extremes(s: set<nat>) returns (low: nat, high: nat)
    requires s != {}
    ensures low in s && high in s && forall i :: i in s ==> low <= i <= high
    decreases |s|
  {
    var x :| x in s;
    if s == {x} {
      low, high := x, x;
    } else {
      var l, h := Extremes(s - {x});
      low, high := if x < l then x else l, if h < x then x else h;
      forall i | i in s ensures low <= i <= high { if i != x { assert i in s - {x}; } }
    }
  }

  // Whatever the arrivals, the calls admitted within any window of width `width` number at most
  // width / interval + burst: any n admissions span at least n - burst intervals.
  lemma WindowBound(interval: nat, burst: nat, arrivals: seq<Instant>, calls: set<nat>, start: Instant, width: nat)
    requires burst > 0
    requires forall i :: i in calls ==> i < |arrivals| && start <= AdmittedAt(interval, burst, arrivals, i) <= start + width
    ensures |calls| * interval <= width + burst * interval
  {
    hide Reserve, AdmittedAt;
    if calls != {} {
      var low, high := Extremes(calls);
      WithinRange(calls, low, high);
      AdmissionsAreSpaced(interval, burst, arrivals, low, high);
      Scaled(|calls|, high - low + 1, interval);
    }
  }

  lemma Scaled(a: nat, b: nat, interval: nat)
    requires a <= b
    ensures a * interval <= b * interval
  {
  }

  // ---- Order and burst ----

  // For arrivals in order, admissions are in order.
  lemma {:induction false} AdmissionsInOrder(interval: nat, burst: nat, arrivals: seq<Instant>, i: nat, j: nat)
    requires burst > 0 && i <= j < |arrivals|
    requires forall x, y :: 0 <= x <= y < |arrivals| ==> arrivals[x] <= arrivals[y]
    ensures AdmittedAt(interval, burst, arrivals, i) <= AdmittedAt(interval, burst, arrivals, j)
    decreases j
  {
    hide Reserve;
    if i < j {
      AdmissionsInOrder(interval, burst, arrivals, i, j - 1);
      NextTheoretical(interval, burst, arrivals, j - 1);
      AdmissionIsEarliest(interval, burst, arrivals, j);
      if j > 1 {
        AdmissionIsEarliest(interval, burst, arrivals, j - 1);
      } else {
        FirstIsImmediate(interval, burst, arrivals);
      }
    }
  }

  lemma FirstIsImmediate(interval: nat, burst: nat, arrivals: seq<Instant>)
    requires arrivals != []
    ensures AdmittedAt(interval, burst, arrivals, 0) == arrivals[0]
  {
  }

  predicate Simultaneous(arrivals: seq<Instant>, now: Instant) {
    forall i :: 0 <= i < |arrivals| ==> arrivals[i] == now
  }

  lemma {:induction false} SimultaneousTheory(interval: nat, burst: nat, arrivals: seq<Instant>, now: Instant, k: nat)
    requires burst > 0 && Simultaneous(arrivals, now) && 0 < k <= |arrivals|
    ensures Theoretical(interval, burst, arrivals, k) == now + k * interval
  {
    hide Reserve;
    NextTheoretical(interval, burst, arrivals, k - 1);
    if k == 1 {
      FirstIsImmediate(interval, burst, arrivals);
      assert 1 * interval == interval;
    } else {
      SimultaneousTheory(interval, burst, arrivals, now, k - 1);
      AdmissionIsEarliest(interval, burst, arrivals, k - 1);
      assert k * interval == (k - 1) * interval + interval;
      assert 0 <= interval * (burst - 1) && 0 <= (k - 1) * interval;
    }
  }

  // Of simultaneous calls the first `burst` wait nothing, and each further one a whole interval more.
  lemma SimultaneousWait(interval: nat, burst: nat, arrivals: seq<Instant>, now: Instant, k: nat)
    requires burst > 0 && Simultaneous(arrivals, now) && k < |arrivals|
    ensures AdmittedAt(interval, burst, arrivals, k) == now + (if k < burst then 0 else (k - burst + 1) * interval)
  {
    hide Reserve;
    if k == 0 {
      FirstIsImmediate(interval, burst, arrivals);
    } else {
      SimultaneousTheory(interval, burst, arrivals, now, k);
      AdmissionIsEarliest(interval, burst, arrivals, k);
      if k < burst {
        Scaled(k, burst - 1, interval);
      } else {
        assert (k - burst + 1) * interval == k * interval - (burst - 1) * interval;
        Scaled(burst - 1, k, interval);
      }
    }
  }
}
