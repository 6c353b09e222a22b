/** The monotonic clock reading and the flow table with its sweep of stale entries. */
module FlowTables {
  import opened Bytes
  import opened Packets

  type i64 = x: int | -0x8000_0000_0000_0000 <= x < 0x8000_0000_0000_0000

  const SECOND := 1_000_000_000

  datatype Timespec = Timespec(sec: i64, nsec: i64)

  /** Signed 64-bit wrap-around, and the conversion to unsigned. */
  function WrapI64(x: int): i64 {
    (x + 0x8000_0000_0000_0000) % TWO64 - 0x8000_0000_0000_0000
  }

  function ToU64(x: int): u64 {
    x % TWO64
  }

  /** Nanoseconds since boot; a failed clock call (None) reads as 0. */
  function NanosSinceBoot(reading: Option<Timespec>): u64 {
    match reading
    case None => 0
    case Some(ts) =>
      var seconds := WrapI64(ts.sec * SECOND);
      ToU64(WrapI64(ts.nsec + seconds))
  }

  function TrueNanos(ts: Timespec): int {
    ts.sec * SECOND + ts.nsec
  }

  lemma WrapIsModular(x: int) returns (turns: int)
    ensures WrapI64(x) == x + TWO64 * turns
  {
    turns := -((x + 0x8000_0000_0000_0000) / TWO64);
  }

  lemma ModularShift(x: int, turns: int)
    ensures ToU64(x + TWO64 * turns) == ToU64(x)
  {
  }

  lemma ToU64IsExact(x: int)
    ensures ToU64(x) == x <==> 0 <= x < TWO64
  {
  }

  /** Two overflows do not add up: the reading is the true time modulo 2^64, hence exact
      precisely when the true time fits 64 unsigned bits. */
  lemma ClockIsModular(ts: Timespec)
    ensures TrueNanos(ts) == 1_000_000_000 * ts.sec + ts.nsec
    ensures NanosSinceBoot(Some(ts)) == TrueNanos(ts) % 0x1_0000_0000_0000_0000
    ensures NanosSinceBoot(Some(ts)) == TrueNanos(ts) <==> 0 <= TrueNanos(ts) < 0x1_0000_0000_0000_0000
  {
    var seconds := WrapI64(ts.sec * SECOND);
    var a := WrapIsModular(ts.sec * SECOND);
    var b := WrapIsModular(ts.nsec + seconds);
    ModularShift(TrueNanos(ts), a + b);
    ToU64IsExact(TrueNanos(ts));
  }

  /** A reading in seconds and nanoseconds, within the first 285 years after boot. */
  lemma ReadingInSeconds(sec: i64, nsec: i64)
    requires 0 <= sec <= 9_000_000_000 && 0 <= nsec < 1_000_000_000
    ensures NanosSinceBoot(Some(Timespec(sec, nsec))) == 1_000_000_000 * sec + nsec
  {
    ClockIsModular(Timespec(sec, nsec));
  }

  predicate ValidTimespec(ts: Timespec) {
    ts.sec >= 0 && 0 <= ts.nsec < SECOND && TrueNanos(ts) < 0x8000_0000_0000_0000
  }

  /** On valid readings the conversion keeps the order of (seconds, nanoseconds). */
  lemma ClockKeepsOrder(a: Timespec, b: Timespec)
    requires ValidTimespec(a) && ValidTimespec(b)
    ensures NanosSinceBoot(Some(a)) < NanosSinceBoot(Some(b))
            <==> a.sec < b.sec || (a.sec == b.sec && a.nsec < b.nsec)
  {
    ClockIsModular(a);
    ClockIsModular(b);
  }

  type Table = map<Key, u64>

  /** The staleness test: unsigned subtraction, whole milliseconds, strictly more than 10000. */
  predicate Stale(now: u64, timestamp: u64) {
    ToU64(now - timestamp) / 1_000_000 > 10_000
  }

  const STALE_AGE := 10_001_000_000

  /** What the wrapped test means: at least 10.001 s old, or stamped in the future by
      anything but the last 10.001 s of the 64-bit range. */
  lemma StaleMeansOldOrFuture(now: u64, timestamp: u64)
    ensures STALE_AGE == 10_001_000_000 && TWO64 == 0x1_0000_0000_0000_0000
    ensures Stale(now, timestamp) <==>
            if timestamp <= now then now - timestamp >= STALE_AGE else timestamp - now <= TWO64 - STALE_AGE
  {
  }

  /** Younger than 10.001 s at time `now`, or not even stamped by then: what a sweep is not
      meant to delete. */
  predicate TooYoung(now: u64, timestamp: u64) {
    now < timestamp + STALE_AGE
  }

  /** The wrapped test deletes an entry that is too young exactly when its stamp is in the
      future, short of the last 10.001 s of the range. */
  lemma StaleAndTooYoung(now: u64, timestamp: u64)
    ensures Stale(now, timestamp) && TooYoung(now, timestamp)
            <==> now < timestamp <= now + (TWO64 - STALE_AGE)
  {
    StaleMeansOldOrFuture(now, timestamp);
  }

  /** An order in which an iteration may visit the table: every key once. */
  ghost predicate IsIterationOrder(order: seq<Key>, t: Table) {
    && (forall i :: 0 <= i < |order| ==> order[i] in t)
    && (forall k :: k in t ==> k in order)
    && (forall i, j :: 0 <= i < j < |order| ==> order[i] != order[j])
  }

  /** `n` is the length of the longest prefix of `order` whose entries are all stale. */
  ghost predicate IsStaleRun(now: u64, t: Table, order: seq<Key>, n: nat)
    requires forall i :: 0 <= i < |order| ==> order[i] in t
  {
    && n <= |order|
    && (forall i :: 0 <= i < n ==> Stale(now, t[order[i]]))
    && (n < |order| ==> !Stale(now, t[order[n]]))
  }

  function KeySet(keys: seq<Key>): set<Key> {
    set k | k in keys
  }

  function Without(t: Table, keys: seq<Key>): Table {
    t - KeySet(keys)
  }

  lemma PrefixGrows(t: Table, order: seq<Key>, i: nat)
    requires 0 < i <= |order|
    ensures KeySet(order[..i]) == KeySet(order[..i - 1]) + {order[i - 1]}
    ensures Without(t, order[..i]) == Without(t, order[..i - 1]) - {order[i - 1]}
  {
    assert order[..i] == order[..i - 1] + [order[i - 1]];
  }

  /** The callback's test. */
  method IsStale(now: u64, timestamp: u64) returns (stale: bool)
    ensures stale <==> Stale(now, timestamp)
  {
    stale := ToU64(now - timestamp) / 1_000_000 > 10_000;
  }

  class FlowTable {
    var entries: Table

    constructor ()
      ensures entries == map[]
    {
      entries := map[];
    }

    method Insert(hash: Key, timestamp: u64)
      modifies this
      ensures entries == old(entries)[hash := timestamp]
    {
      entries := entries[hash := timestamp];
    }

    method Get(hash: Key) returns (value: u64, ok: bool)
      ensures ok <==> hash in entries
      ensures value == if ok then entries[hash] else 0
    {
      ok := hash in entries;
      value := if ok then entries[hash] else 0;
    }

    /** Removes the entry, or reports that there is none. */
    method Remove(hash: Key) returns (missing: bool)
      modifies this
      ensures entries == old(entries) - {hash}
      ensures missing <==> hash !in old(entries)
    {
      var found := hash in entries;
      if found {
        entries := entries - {hash};
        missing := false;
      } else {
        missing := true;
      }
    }

    /** One sweep with the table to itself. */
    method Prune(reading: Option<Timespec>, order: seq<Key>) returns (pruned: seq<Key>)
      requires IsIterationOrder(order, entries)
      modifies this
      ensures pruned <= order
      ensures IsStaleRun(NanosSinceBoot(reading), old(entries), order, |pruned|)
      ensures entries == Without(old(entries), pruned)
    {
      var now := NanosSinceBoot(reading);
      pruned := RangeFrom(now, order);
    }

    /** The iteration with its callback: it stops at the first entry that is not stale. */
    method RangeFrom(now: u64, order: seq<Key>) returns (pruned: seq<Key>)
      requires IsIterationOrder(order, entries)
      modifies this
      ensures pruned <= order
      ensures IsStaleRun(now, old(entries), order, |pruned|)
      ensures entries == Without(old(entries), pruned)
    {
      ghost var before := entries;
      var i := 0;
      while i < |order|
        invariant 0 <= i <= |order|
        invariant forall j :: 0 <= j < i ==> Stale(now, before[order[j]])
        invariant entries == Without(before, order[..i])
      {
        SurvivorsFollowTheRun(before, order, i, i);
        var timestamp: u64 := entries[order[i]];
        var stale := IsStale(now, timestamp);
        if !stale {
          break;
        }
        entries := entries - {order[i]};
        PrefixGrows(before, order, i + 1);
        i := i + 1;
      }
      pruned := order[..i];
    }
  }

  /** What is left of `t` after a sweep at `now` in the given order. */
  ghost predicate Swept(now: u64, t: Table, order: seq<Key>, n: nat, after: Table)
    requires IsIterationOrder(order, t)
  {
    IsStaleRun(now, t, order, n) && after == Without(t, order[..n])
  }

  lemma SurvivorsFollowTheRun(t: Table, order: seq<Key>, n: nat, j: nat)
    requires IsIterationOrder(order, t) && n <= |order| && j < |order|
    ensures order[j] in Without(t, order[..n]) <==> n <= j
    ensures n <= j ==> Without(t, order[..n])[order[j]] == t[order[j]]
  {
  }

  /** A sweep clears every stale entry exactly when the iteration happens to meet all
      stale entries before any other. */
  lemma SweepIsCompleteIffStaleComeFirst(now: u64, t: Table, order: seq<Key>, n: nat, after: Table)
    requires IsIterationOrder(order, t) && Swept(now, t, order, n, after)
    ensures (forall k :: k in after ==> !Stale(now, after[k]))
            <==> (forall i, j :: 0 <= i < j < |order| && Stale(now, t[order[j]]) ==> Stale(now, t[order[i]]))
  {
    if forall k :: k in after ==> !Stale(now, after[k]) {
      forall i, j | 0 <= i < j < |order| && Stale(now, t[order[j]])
        ensures Stale(now, t[order[i]])
      {
        SurvivorsFollowTheRun(t, order, n, j);
      }
    } else {
      var k :| k in after && Stale(now, after[k]);
      var j :| 0 <= j < |order| && order[j] == k;
      SurvivorsFollowTheRun(t, order, n, j);
      assert !Stale(now, t[order[n]]) && n < j;
    }
  }

  /** A sweep at `sec` seconds and `nsec` nanoseconds after boot: an entry less than 10.001
      seconds old stays as it is, what goes is at least that old or stamped later, and if the
      iteration stops early, it is not at an entry that is that old. */
  lemma SweepInSeconds(sec: i64, nsec: i64, t: Table, order: seq<Key>, n: nat, after: Table, k: Key)
    requires 0 <= sec <= 9_000_000_000 && 0 <= nsec < 1_000_000_000
    requires IsIterationOrder(order, t) && Swept(NanosSinceBoot(Some(Timespec(sec, nsec))), t, order, n, after)
    requires k in t
    ensures var age: int := 1_000_000_000 * sec + nsec - (t[k] as int);
            && (0 <= age < 10_001_000_000 ==> k in after && after[k] == t[k])
            && (k !in after ==> age >= 10_001_000_000 || age < 0)
            && (n < |order| && k == order[n] ==> k in after && age < 10_001_000_000)
  {
    ReadingInSeconds(sec, nsec);
    StaleMeansOldOrFuture(NanosSinceBoot(Some(Timespec(sec, nsec))), t[k]);
    var j :| 0 <= j < |order| && order[j] == k;
    SurvivorsFollowTheRun(t, order, n, j);
  }

  /** An iteration that begins with a young entry leaves every stale one in the table. */
  lemma AStaleEntryCanSurvive(young: Key, aged: Key, reading: Timespec)
    requires young != aged && NanosSinceBoot(Some(reading)) >= STALE_AGE
    ensures var now := NanosSinceBoot(Some(reading));
            var t := map[young := now, aged := now - STALE_AGE];
            && IsIterationOrder([young, aged], t) && Stale(now, t[aged])
            && Swept(now, t, [young, aged], 0, t)
  {
  }

  /** No entry that is too young is lost, unless its stamp is in the future; what survives
      is unchanged. */
  lemma SweepKeepsYoungEntries(now: u64, t: Table, order: seq<Key>, n: nat, after: Table, k: Key)
    requires IsIterationOrder(order, t) && Swept(now, t, order, n, after)
    requires k in t && TooYoung(now, t[k]) && t[k] <= now
    ensures k in after && after[k] == t[k]
  {
  }

  /** When the clock cannot be read the sweep takes the time to be 0: it empties the table
      exactly when every stamp lies after boot and before the last 10.001 s of the range. */
  lemma FailedClockEmptiesTable(t: Table, order: seq<Key>, n: nat, after: Table)
    requires IsIterationOrder(order, t) && Swept(NanosSinceBoot(None), t, order, n, after)
    ensures after == map[] <==> forall k :: k in t ==> 0 < t[k] <= TWO64 - STALE_AGE
  {
    forall k | k in t
      ensures Stale(0, t[k]) <==> 0 < t[k] <= TWO64 - STALE_AGE
    {
      StaleMeansOldOrFuture(0, t[k]);
    }
    if n < |order| {
      SurvivorsFollowTheRun(t, order, n, n);
      assert !Stale(0, t[order[n]]);
    } else {
      assert order[..n] == order;
      assert after == map[];
      forall k | k in t
        ensures Stale(0, t[k])
      {
        var j :| 0 <= j < |order| && order[j] == k;
        assert Stale(0, t[order[j]]);
      }
    }
  }

  lemma SweepAtZeroEmpties(k: Key, now: u64)
    requires 0 < now <= TWO64 - STALE_AGE
    ensures var t := map[k := now];
            IsIterationOrder([k], t) && TooYoung(now, t[k]) && Swept(0, t, [k], 1, map[])
  {
    StaleMeansOldOrFuture(0, now);
    var t: Table := map[k := now];
    assert [k][..1] == [k] && k in KeySet([k]);
    assert Without(t, [k][..1]) == map[];
  }

  /** An entry stored this very moment is lost when the next sweep cannot read the clock. */
  lemma AFailedClockLosesAYoungEntry(k: Key, trueTime: Timespec)
    requires 0 < NanosSinceBoot(Some(trueTime)) <= TWO64 - STALE_AGE
    ensures var now := NanosSinceBoot(Some(trueTime));
            var t := map[k := now];
            && IsIterationOrder([k], t) && TooYoung(now, t[k])
            && Swept(NanosSinceBoot(None), t, [k], 1, map[])
  {
    SweepAtZeroEmpties(k, NanosSinceBoot(Some(trueTime)));
  }
}
