/** What a sweep can delete while the consumer keeps working on the same table. */
module SweepRaces {
  import opened Bytes
  import opened Protocols
  import opened KernelFlow
  import opened Packets
  import opened FlowTables
  import opened Matching
  import opened Pipeline
  import opened PipelineSafety
  import opened Schedules

  function StoresSince(s: State, w: Sweep): seq<(Key, u64)> {
    if w.mark <= |s.stores| then s.stores[w.mark..] else []
  }

  /** The latest store of `k` since the sweep began. */
  function StoredSince(s: State, w: Sweep, k: Key): Option<u64> {
    LatestStore(StoresSince(s, w), k)
  }

  /** The entry of `k`, if it has one, is the latest store since the sweep began, or, if
      there was none, the only mapping of `k` the sweep can have seen. */
  ghost predicate EntryExplained(s: State, w: Sweep, k: Key)
    requires k in s.table
  {
    match StoredSince(s, w, k)
    case Some(v) => s.table[k] == v
    case None => (k, s.table[k]) in w.seen && forall v :: (k, v) in w.seen ==> v == s.table[k]
  }

  ghost predicate SweepExplained(s: State) {
    s.pruner.Waiting?
    || var w := s.pruner.sweep;
       && w.mark <= |s.stores|
       && (forall k :: k in s.table ==> EntryExplained(s, w, k))
       && (s.pruner.Evicting? ==> exists v :: (s.pruner.key, v) in w.seen && Stale(w.now, v))
  }

  lemma StoreKeepsExplained(s: State)
    requires SweepExplained(s) && s.consumer.Storing? && !s.pruner.Waiting?
    ensures SweepExplained(DoConsume(s).value)
  {
    var k, v := s.consumer.key, s.consumer.packet.timestamp;
    var after := DoConsume(s).value;
    var w, w' := s.pruner.sweep, after.pruner.sweep;
    assert StoresSince(after, w') == StoresSince(s, w) + [(k, v)];
    forall j | j in after.table
      ensures EntryExplained(after, w', j)
    {
      LatestStoreAppend(StoresSince(s, w), (k, v), j);
      if j != k {
        assert EntryExplained(s, w, j);
      }
    }
    if s.pruner.Evicting? {
      var u :| (s.pruner.key, u) in w.seen && Stale(w.now, u);
      assert (after.pruner.key, u) in w'.seen;
    }
  }

  lemma TickExplains(s: State, reading: Option<Timespec>)
    requires s.pruner.Waiting?
    ensures SweepExplained(DoPrune(s, Tick(reading)).value)
  {
  }

  /** Some table entries may go; everything a sweep goes by stays. */
  ghost predicate Shrinks(s: State, t: State) {
    && t.stores == s.stores
    && (forall k :: k in t.table ==> k in s.table && t.table[k] == s.table[k])
    && (!s.pruner.Waiting? && !t.pruner.Waiting? ==>
          var v, w := s.pruner.sweep, t.pruner.sweep;
          w.now == v.now && w.seen == v.seen && w.mark == v.mark)
  }

  /** Any step that neither stores nor begins a sweep. */
  lemma OtherStepsShrink(s: State, a: Act)
    requires Do(s, a).Some? && !(a.Consume? && s.consumer.Storing?) && !a.Tick?
    ensures Shrinks(s, Do(s, a).value)
  {
  }

  lemma EvictingBegins(s: State, a: Act)
    requires Do(s, a).Some? && Do(s, a).value.pruner.Evicting?
    ensures var k := Do(s, a).value.pruner.key;
            || (s.pruner.Evicting? && s.pruner.key == k)
            || (s.pruner.Ranging? && exists v :: (k, v) in s.pruner.sweep.seen && Stale(s.pruner.sweep.now, v))
  {
  }

  lemma ShrinkingKeepsExplained(s: State, t: State)
    requires SweepExplained(s) && Shrinks(s, t) && !s.pruner.Waiting? && !t.pruner.Waiting?
    ensures forall k :: k in t.table ==> EntryExplained(t, t.pruner.sweep, k)
  {
    forall k | k in t.table
      ensures EntryExplained(t, t.pruner.sweep, k)
    {
      assert EntryExplained(s, s.pruner.sweep, k);
    }
  }

  lemma OtherStepsKeepExplained(s: State, a: Act)
    requires SweepExplained(s) && Do(s, a).Some? && !s.pruner.Waiting?
    requires !(a.Consume? && s.consumer.Storing?) && !a.Tick?
    ensures SweepExplained(Do(s, a).value)
  {
    var t := Do(s, a).value;
    OtherStepsShrink(s, a);
    if !t.pruner.Waiting? {
      ShrinkingKeepsExplained(s, t);
      if t.pruner.Evicting? {
        EvictingBegins(s, a);
      }
    }
  }

  lemma StaysWaiting(s: State, a: Act)
    requires Do(s, a).Some? && s.pruner.Waiting? && !a.Tick?
    ensures Do(s, a).value.pruner.Waiting?
  {
  }

  lemma {:induction false} SweepsAreExplained(acts: seq<Act>)
    requires Run(acts).Some?
    ensures SweepExplained(Run(acts).value)
    decreases |acts|
  {
    if |acts| > 0 {
      RunFront(acts);
      var front, a := acts[..|acts| - 1], acts[|acts| - 1];
      var s := Run(front).value;
      SweepsAreExplained(front);
      if a.Tick? {
        TickExplains(s, a.reading);
      } else if s.pruner.Waiting? {
        StaysWaiting(s, a);
      } else if a.Consume? && s.consumer.Storing? {
        StoreKeepsExplained(s);
      } else {
        OtherStepsKeepExplained(s, a);
      }
    }
  }

  /** A sweep is about to delete an entry. The entry is too young for that exactly when it
      has been stored since the sweep began, with a stamp that is too young, or was there
      before with a stamp from the future of the sweep's clock reading. */
  lemma AYoungEntryIsSweptIffStoredMeanwhileOrFuture(acts: seq<Act>)
    requires Run(acts).Some?
    requires var s := Run(acts).value; s.pruner.Evicting? && s.pruner.key in s.table
    ensures var s := Run(acts).value;
            var w, k := s.pruner.sweep, s.pruner.key;
            var stored := StoredSince(s, w, k);
            TooYoung(w.now, s.table[k])
            <==> if stored.Some? then TooYoung(w.now, stored.value) else w.now < s.table[k]
  {
    SweepsAreExplained(acts);
    var s := Run(acts).value;
    var k, w := s.pruner.key, s.pruner.sweep;
    assert EntryExplained(s, w, k);
    if StoredSince(s, w, k).None? {
      var v :| (k, v) in w.seen && Stale(w.now, v);
      StaleAndTooYoung(w.now, v);
    }
  }

  // With one steady clock the second case cannot happen.

  /** Every entry, and every store, is the stamp of a clock reading made before. */
  ghost predicate TableFromStores(s: State) {
    forall k :: k in s.table ==> (k, s.table[k]) in s.stores
  }

  lemma StepKeepsTableFromStores(s: State, a: Act)
    requires TableFromStores(s) && Do(s, a).Some?
    ensures TableFromStores(Do(s, a).value)
  {
    var t := Do(s, a).value;
    assert a.Consume? && s.consumer.Storing? ==> t.stores[|s.stores|] == (s.consumer.key, s.consumer.packet.timestamp);
    assert s.stores <= t.stores;
  }

  lemma {:induction false} EntriesWereStored(acts: seq<Act>)
    requires Run(acts).Some?
    ensures TableFromStores(Run(acts).value)
    decreases |acts|
  {
    if |acts| > 0 {
      RunFront(acts);
      EntriesWereStored(acts[..|acts| - 1]);
      StepKeepsTableFromStores(Run(acts[..|acts| - 1]).value, acts[|acts| - 1]);
    }
  }

  /** What is stored is the timestamp of a packet. */
  lemma {:induction false} StoresComeFromPackets(ops: seq<Op>, x: (Key, u64)) returns (op: Op)
    requires x in Exec(ops).stores
    ensures op in ReceivesOf(ops) && op.Receive? && op.packet.timestamp == x.1
    decreases |ops|
  {
    var front, last := ops[..|ops| - 1], ops[|ops| - 1];
    if x in Exec(front).stores {
      op := StoresComeFromPackets(front, x);
    } else {
      op := last;
      assert ReceivesOf(ops)[|ReceivesOf(front)|] == op;
    }
  }

  lemma StoresAreStamps(acts: seq<Act>, x: (Key, u64)) returns (n: nat)
    requires Run(acts).Some? && x in Run(acts).value.stores
    ensures n < |Stamps(acts)| && Stamps(acts)[n].Time() == x.1
  {
    var s := Run(acts).value;
    RunsAreLinearizable(acts);
    RecordsStayInOrder(acts);
    RecordsAreGenuine(acts);
    var op := StoresComeFromPackets(History(acts), x);
    n := HandledStamp(Handed(s), ReceivesOf(History(acts)), Underway(s.consumer), op);
    assert Handed(s)[n] in s.accepted;
    n := Handed(s)[n].id;
  }

  lemma HandledStamp(handed: seq<Stamped>, handled: seq<Op>, underway: seq<Op>, op: Op) returns (i: nat)
    requires handled + underway == OpsOf(handed) && op in handled && op.Receive?
    ensures i < |handed| && handed[i].packet == op.packet
  {
    i :| 0 <= i < |handled| && handled[i] == op;
    assert (handled + underway)[i] == op;
  }

  lemma {:induction false} StampsAreReadings(acts: seq<Act>, n: nat)
    requires n < |Stamps(acts)|
    ensures Stamps(acts)[n].Time() in Readings(acts)
    decreases |acts|
  {
    var front, a := acts[..|acts| - 1], acts[|acts| - 1];
    if n < |Stamps(front)| {
      StampsAreReadings(front, n);
    } else {
      assert Readings(acts)[|Readings(front)|] == a.now;
    }
  }

  lemma SteadyUpTo(acts: seq<Act>, front: seq<Act>, a: Act)
    requires |acts| > 0 && front == acts[..|acts| - 1] && a == acts[|acts| - 1] && OneSteadyClock(acts)
    ensures OneSteadyClock(front)
    ensures a.Tick? ==> NoneAfter(front, NanosSinceBoot(a.reading))
  {
    assert Readings(acts) == Readings(front) + ReadingOf(a);
    assert forall i :: 0 <= i < |Readings(front)| ==> Readings(front)[i] == Readings(acts)[i];
    if a.Tick? {
      assert Readings(acts)[|Readings(front)|] == NanosSinceBoot(a.reading);
    }
  }

  ghost predicate NoneAfter(acts: seq<Act>, now: u64) {
    forall v :: v in Readings(acts) ==> v <= now
  }

  /** A mapping the sweep can see is older than its clock reading or was stored since. */
  ghost predicate SeenOrStored(s: State) {
    s.pruner.Waiting?
    || var w := s.pruner.sweep;
       w.mark <= |s.stores| && forall x :: x in w.seen ==> x.1 <= w.now || x in StoresSince(s, w)
  }

  lemma StoreKeepsSeen(s: State)
    requires SeenOrStored(s) && s.consumer.Storing? && !s.pruner.Waiting?
    ensures SeenOrStored(DoConsume(s).value)
  {
    var x := (s.consumer.key, s.consumer.packet.timestamp);
    var after := DoConsume(s).value;
    var since, since' := StoresSince(s, s.pruner.sweep), StoresSince(after, after.pruner.sweep);
    assert since' == since + [x];
    assert since'[|since|] == x;
  }

  lemma OtherStepsKeepSeen(s: State, a: Act)
    requires SeenOrStored(s) && Do(s, a).Some? && !s.pruner.Waiting?
    requires !(a.Consume? && s.consumer.Storing?) && !a.Tick?
    ensures SeenOrStored(Do(s, a).value)
  {
  }

  lemma EntriesAreNotFromTheFuture(acts: seq<Act>, now: u64)
    requires Run(acts).Some? && NoneAfter(acts, now)
    ensures forall k :: k in Run(acts).value.table ==> Run(acts).value.table[k] <= now
  {
    var s := Run(acts).value;
    EntriesWereStored(acts);
    forall k | k in s.table
      ensures s.table[k] <= now
    {
      var n := StoresAreStamps(acts, (k, s.table[k]));
      StampsAreReadings(acts, n);
    }
  }

  lemma TickSeesOld(acts: seq<Act>, reading: Option<Timespec>)
    requires Run(acts).Some? && Run(acts).value.pruner.Waiting? && NoneAfter(acts, NanosSinceBoot(reading))
    ensures SeenOrStored(DoPrune(Run(acts).value, Tick(reading)).value)
  {
    EntriesAreNotFromTheFuture(acts, NanosSinceBoot(reading));
  }

  lemma {:induction false} SeenIsOldOrStored(acts: seq<Act>)
    requires Run(acts).Some? && OneSteadyClock(acts)
    ensures SeenOrStored(Run(acts).value)
    decreases |acts|
  {
    if |acts| > 0 {
      RunFront(acts);
      var front, a := acts[..|acts| - 1], acts[|acts| - 1];
      var s := Run(front).value;
      SteadyUpTo(acts, front, a);
      SeenIsOldOrStored(front);
      if a.Tick? {
        TickSeesOld(front, a.reading);
      } else if s.pruner.Waiting? {
        StaysWaiting(s, a);
      } else if a.Consume? && s.consumer.Storing? {
        StoreKeepsSeen(s);
      } else {
        OtherStepsKeepSeen(s, a);
      }
    }
  }

  lemma {:induction false} NothingStored(stores: seq<(Key, u64)>, k: Key, v: u64)
    requires LatestStore(stores, k).None?
    ensures (k, v) !in stores
    decreases |stores|
  {
    if |stores| > 0 {
      NothingStored(stores[..|stores| - 1], k, v);
    }
  }

  /** When the clock that kernel and user space share never runs backwards, a failed reading
      counting as 0, an entry about to be deleted is too young exactly when it has been
      stored since the sweep began with a stamp that is too young. */
  lemma WithOneSteadyClockOnlyStoresMeanwhileAreLostYoung(acts: seq<Act>)
    requires Run(acts).Some? && OneSteadyClock(acts)
    requires var s := Run(acts).value; s.pruner.Evicting? && s.pruner.key in s.table
    ensures var s := Run(acts).value;
            var w, k := s.pruner.sweep, s.pruner.key;
            var stored := StoredSince(s, w, k);
            TooYoung(w.now, s.table[k]) <==> stored.Some? && TooYoung(w.now, stored.value)
  {
    AYoungEntryIsSweptIffStoredMeanwhileOrFuture(acts);
    SweepsAreExplained(acts);
    SeenIsOldOrStored(acts);
    var s := Run(acts).value;
    var k, w := s.pruner.key, s.pruner.sweep;
    assert EntryExplained(s, w, k);
    if StoredSince(s, w, k).None? {
      NothingStored(StoresSince(s, w), k, s.table[k]);
    }
  }

  // Both ways in which a young entry is lost.

  /** The sweep deletes the entry and nobody has reported it. */
  lemma DeleteEntry(acts: seq<Act>) returns (longer: seq<Act>)
    requires Run(acts).Some?
    requires var s := Run(acts).value; Idle(s) && s.pruner.Evicting? && s.pruner.key in s.table
    ensures Run(longer).Some? && Readings(longer) == Readings(acts)
    ensures var s, t := Run(acts).value, Run(longer).value;
            && t.table == s.table - {s.pruner.key}
            && t.lost == s.lost + [(s.pruner.key, s.table[s.pruner.key])]
            && t.pruner == Forget(Ranging(s.pruner.sweep), s.pruner.key)
  {
    longer := Extend(acts, Delete);
  }

  /** A sweep begins and meets the entry of `k` first. */
  lemma SweepMeets(acts: seq<Act>, reading: Option<Timespec>, k: Key) returns (longer: seq<Act>)
    requires Run(acts).Some?
    requires var s := Run(acts).value;
             s.pruner.Waiting? && k in s.table && Stale(NanosSinceBoot(reading), s.table[k])
    ensures Run(longer).Some? && Readings(longer) == Readings(acts) + [NanosSinceBoot(reading)]
    ensures var s, t := Run(acts).value, Run(longer).value;
            && t == s.(pruner := t.pruner)
            && t.pruner.Evicting? && t.pruner.key == k && t.pruner.sweep.now == NanosSinceBoot(reading)
  {
    LiveMembers(Run(acts).value.table, (k, Run(acts).value.table[k]));
    longer := Extend(acts, Tick(reading));
    longer := Extend(longer, Visit(k, Run(acts).value.table[k]));
  }

  lemma SweepMeetsAnOldEntry(udp: Skb, stamp: u64, reading: Timespec) returns (acts: seq<Act>)
    requires Accepts(udp) && udp.frame[23] == UDP
    requires stamp + STALE_AGE <= NanosSinceBoot(Some(reading))
    ensures Run(acts).Some? && Readings(acts) == [stamp, NanosSinceBoot(Some(reading))]
    ensures var s, k := Run(acts).value, KeyOfDatagrams(udp);
            && Idle(s) && s.table == map[k := stamp] && s.lost == []
            && s.pruner.Evicting? && s.pruner.key == k && s.pruner.sweep.now == NanosSinceBoot(Some(reading))
  {
    StaleMeansOldOrFuture(NanosSinceBoot(Some(reading)), stamp);
    acts := HandleOpening([], udp, stamp);
    acts := SweepMeets(acts, Some(reading), KeyOfDatagrams(udp));
  }

  /** While the sweep holds on to its key, the entry is reported and stored anew. */
  lemma ReplaceThenDelete(acts: seq<Act>, udp: Skb, now: u64) returns (longer: seq<Act>)
    requires Accepts(udp) && udp.frame[23] == UDP
    requires Run(acts).Some?
    requires var s, k := Run(acts).value, KeyOfDatagrams(udp);
             Idle(s) && k in s.table && s.pruner.Evicting? && s.pruner.key == k
    ensures Run(longer).Some? && Readings(longer) == Readings(acts) + [now, now]
    ensures var s, t, k := Run(acts).value, Run(longer).value, KeyOfDatagrams(udp);
            && t.pruner.Ranging? && t.pruner.sweep.now == s.pruner.sweep.now
            && k !in t.table && t.lost == s.lost + [(k, now)]
  {
    longer := ReplaceEntry(acts, udp, now);
    longer := DeleteEntry(longer);
  }

  lemma SteadyReadings(acts: seq<Act>, stamp: u64, now: u64)
    requires stamp <= now && Readings(acts) == [stamp, now] + [now, now]
    ensures OneSteadyClock(acts)
  {
  }

  /** The sweep saw the entry's predecessor: an entry of age 0 is gone, under a steady clock. */
  lemma AFreshEntryCanBeSwept(udp: Skb, stamp: u64, reading: Timespec) returns (acts: seq<Act>)
    requires Accepts(udp) && udp.frame[23] == UDP
    requires stamp + STALE_AGE <= NanosSinceBoot(Some(reading))
    ensures Run(acts).Some? && OneSteadyClock(acts)
    ensures var s, k, now := Run(acts).value, KeyOfDatagrams(udp), NanosSinceBoot(Some(reading));
            && s.pruner.Ranging? && s.pruner.sweep.now == now
            && k !in s.table && s.lost == [(k, now)]
  {
    var now := NanosSinceBoot(Some(reading));
    acts := SweepMeetsAnOldEntry(udp, stamp, reading);
    acts := ReplaceThenDelete(acts, udp, now);
    SteadyReadings(acts, stamp, now);
  }

  lemma EntryStampedAfterTheReading(udp: Skb, reading: Timespec, stamp: u64) returns (acts: seq<Act>)
    requires Accepts(udp) && udp.frame[23] == UDP
    ensures Run(acts).Some? && Readings(acts) == [NanosSinceBoot(Some(reading)), stamp]
    ensures var s, k := Run(acts).value, KeyOfDatagrams(udp);
            && Idle(s) && s.table == map[k := stamp] && s.lost == []
            && s.pruner.Ranging? && s.pruner.sweep.now == NanosSinceBoot(Some(reading))
            && s.pruner.sweep.visited == {} && (k, stamp) in s.pruner.sweep.seen
  {
    acts := Extend([], Tick(Some(reading)));
    acts := HandleOpening(acts, udp, stamp);
  }

  /** The sweep sees the current value of the entry. */
  lemma VisitThenDelete(acts: seq<Act>, k: Key, v: u64) returns (longer: seq<Act>)
    requires Run(acts).Some?
    requires var s := Run(acts).value;
             && Idle(s) && k in s.table && s.table[k] == v && s.pruner.Ranging?
             && k !in s.pruner.sweep.visited && (k, v) in s.pruner.sweep.seen && Stale(s.pruner.sweep.now, v)
    ensures Run(longer).Some? && Readings(longer) == Readings(acts)
    ensures var s, t := Run(acts).value, Run(longer).value;
            && t.pruner.Ranging? && t.pruner.sweep.now == s.pruner.sweep.now
            && k !in t.table && t.lost == s.lost + [(k, v)]
  {
    longer := Extend(acts, Visit(k, v));
    longer := DeleteEntry(longer);
  }

  /** The sweep saw the entry itself, stamped just after the sweep had read the clock. */
  lemma AnEntryStampedAfterTheReadingIsSwept(udp: Skb, reading: Timespec, stamp: u64) returns (acts: seq<Act>)
    requires Accepts(udp) && udp.frame[23] == UDP
    requires NanosSinceBoot(Some(reading)) < stamp <= NanosSinceBoot(Some(reading)) + (TWO64 - STALE_AGE)
    ensures Run(acts).Some? && OneSteadyClock(acts)
    ensures var s, k, now := Run(acts).value, KeyOfDatagrams(udp), NanosSinceBoot(Some(reading));
            && s.pruner.Ranging? && s.pruner.sweep.now == now
            && k !in s.table && s.lost == [(k, stamp)] && TooYoung(now, stamp)
  {
    var k, now := KeyOfDatagrams(udp), NanosSinceBoot(Some(reading));
    StaleAndTooYoung(now, stamp);
    acts := EntryStampedAfterTheReading(udp, reading, stamp);
    acts := VisitThenDelete(acts, k, stamp);
    assert Nondecreasing([now, stamp]);
  }
}
