/** When the timestamps of a flow reach the consumer in order. A CPU reads the clock in one
    step and outputs the record in another, so records can overtake one another. */
module StampOrder {
  import opened Bytes
  import opened Protocols
  import opened KernelFlow
  import opened Packets
  import opened Matching
  import opened Runs
  import opened Pipeline
  import opened PipelineSafety
  import opened Schedules

  ghost predicate ClockNeverRunsBackwards(acts: seq<Act>) {
    forall i, j :: 0 <= i < j < |Stamps(acts)| ==> Stamps(acts)[i].Time() <= Stamps(acts)[j].Time()
  }

  /** The accepted records of flow `k` come with nondecreasing timestamps. */
  ghost predicate FlowInOrder(xs: seq<Stamped>, k: Key) {
    forall i, j :: 0 <= i < j < |xs| && xs[i].key == k && xs[j].key == k ==> xs[i].Time() <= xs[j].Time()
  }

  /** Step `m` puts a record of flow `k` into the ring buffer. */
  predicate Emits(acts: seq<Act>, m: nat, k: Key) {
    m < |acts| && acts[m].Output? && !acts[m].refused && acts[m].stamped.key == k
  }

  /** Step `m` emits a record of flow `k` while one with an earlier stamp, which step `n`
      is going to emit, is still in flight. */
  ghost predicate Overtakes(acts: seq<Act>, k: Key, m: nat, n: nat)
    requires Run(acts).Some?
  {
    && m < n && Emits(acts, m, k) && Emits(acts, n, k)
    && acts[n].stamped in At(acts, m).inFlight
    && acts[n].stamped.Time() < acts[m].stamped.Time()
  }

  // What the steps do to the kernel side.

  lemma OutputAppends(acts: seq<Act>, m: nat, k: Key)
    requires Run(acts).Some? && Emits(acts, m, k)
    ensures acts[m].stamped in At(acts, m).inFlight
    ensures At(acts, m + 1).accepted == At(acts, m).accepted + [acts[m].stamped]
  {
    AtNext(acts, m);
  }

  lemma StepAccepts(s: State, a: Act)
    requires Do(s, a).Some?
    ensures Do(s, a).value.accepted == s.accepted + (if a.Output? && !a.refused then [a.stamped] else [])
  {
    if !a.Clock? && !a.Output? {
      OnlyCpusAccept(s, a);
    }
  }

  lemma StepNumbers(s: State, a: Act)
    requires Do(s, a).Some?
    ensures s.readings <= Do(s, a).value.readings
  {
    if !a.Clock? && !a.Output? {
      OnlyCpusAccept(s, a);
    }
  }

  lemma StepKeepsFlying(s: State, a: Act, x: Stamped)
    requires Do(s, a).Some? && x in Do(s, a).value.inFlight && x.id < s.readings
    ensures x in s.inFlight
  {
    if a.Clock? {
      ClockStep(s, a.skb, a.now, Stamp(s.readings, a.skb, a.now));
    } else if !a.Output? {
      OnlyCpusAccept(s, a);
    }
  }

  lemma AtAccepts(acts: seq<Act>, n: nat)
    requires Run(acts).Some? && n < |acts|
    ensures At(acts, n + 1).accepted
            == At(acts, n).accepted + (if acts[n].Output? && !acts[n].refused then [acts[n].stamped] else [])
  {
    AtNext(acts, n);
    StepAccepts(At(acts, n), acts[n]);
  }

  lemma AtNumbers(acts: seq<Act>, n: nat)
    requires Run(acts).Some? && n < |acts|
    ensures At(acts, n).readings <= At(acts, n + 1).readings
  {
    AtNext(acts, n);
    StepNumbers(At(acts, n), acts[n]);
  }

  lemma AtKeepsFlying(acts: seq<Act>, n: nat, x: Stamped)
    requires Run(acts).Some? && n < |acts|
    requires x in At(acts, n + 1).inFlight && x.id < At(acts, n).readings
    ensures x in At(acts, n).inFlight
  {
    AtNext(acts, n);
    StepKeepsFlying(At(acts, n), acts[n], x);
  }

  lemma {:induction false} AcceptedGrows(acts: seq<Act>, m: nat, n: nat)
    requires Run(acts).Some? && m <= n <= |acts|
    ensures At(acts, m).accepted <= At(acts, n).accepted
    decreases n
  {
    if m < n {
      AcceptedGrows(acts, m, n - 1);
      AtAccepts(acts, n - 1);
    }
  }

  /** The step at which record `i` was accepted. */
  lemma {:induction false} EmittedAt(acts: seq<Act>, n: nat, i: nat) returns (m: nat)
    requires Run(acts).Some? && n <= |acts| && i < |At(acts, n).accepted|
    ensures m < n && |At(acts, m).accepted| == i
    ensures acts[m] == Output(At(acts, n).accepted[i], false)
    decreases n
  {
    AtStart(acts);
    AtAccepts(acts, n - 1);
    if i < |At(acts, n - 1).accepted| {
      m := EmittedAt(acts, n - 1, i);
    } else {
      m := n - 1;
    }
  }

  lemma {:induction false} ReadingsGrow(acts: seq<Act>, m: nat, n: nat)
    requires Run(acts).Some? && m <= n <= |acts|
    ensures At(acts, m).readings <= At(acts, n).readings
    decreases n
  {
    if m < n {
      ReadingsGrow(acts, m, n - 1);
      AtNumbers(acts, n - 1);
    }
  }

  /** A record that has been stamped only ever leaves the set of those in flight. */
  lemma {:induction false} FlightOnlyEnds(acts: seq<Act>, m: nat, n: nat, x: Stamped)
    requires Run(acts).Some? && m <= n <= |acts|
    requires x in At(acts, n).inFlight && x.id < At(acts, m).readings
    ensures x in At(acts, m).inFlight
    decreases n
  {
    if m < n {
      ReadingsGrow(acts, m, n - 1);
      AtKeepsFlying(acts, n - 1, x);
      FlightOnlyEnds(acts, m, n - 1, x);
    }
  }

  // The exact condition.

  /** What step `m` emits is found in the final sequence behind what was there before. */
  lemma EmissionIsAccepted(acts: seq<Act>, m: nat, k: Key)
    requires Run(acts).Some? && Emits(acts, m, k)
    ensures var i, xs := |At(acts, m).accepted|, Run(acts).value.accepted;
            i < |xs| && xs[i] == acts[m].stamped
  {
    OutputAppends(acts, m, k);
    AcceptedGrows(acts, m + 1, |acts|);
    AtEnd(acts);
  }

  lemma OvertakingBreaksOrder(acts: seq<Act>, k: Key, m: nat, n: nat)
    requires Run(acts).Some? && Overtakes(acts, k, m, n)
    ensures !FlowInOrder(Run(acts).value.accepted, k)
  {
    EmissionIsAccepted(acts, m, k);
    EmissionIsAccepted(acts, n, k);
    OutputAppends(acts, m, k);
    AcceptedGrows(acts, m + 1, n);
    assert |At(acts, m).accepted| < |At(acts, n).accepted|;
  }

  /** Under a steady clock, of two genuine records the earlier stamp has the smaller number. */
  lemma EarlierStampHasSmallerNumber(acts: seq<Act>, i: nat, j: nat)
    requires Run(acts).Some? && ClockNeverRunsBackwards(acts)
    requires var xs := Run(acts).value.accepted;
             i < |xs| && j < |xs| && xs[j].Time() < xs[i].Time()
    ensures Run(acts).value.accepted[j].id < Run(acts).value.accepted[i].id
  {
    RecordsAreGenuine(acts);
  }

  lemma InFlightIsNumbered(acts: seq<Act>, m: nat, x: Stamped)
    requires Run(acts).Some? && m <= |acts| && x in At(acts, m).inFlight
    ensures x.id < At(acts, m).readings
  {
    RunPrefix(acts, m);
    RecordsAreGenuine(acts[..m]);
  }

  lemma DisorderIsOvertaking(acts: seq<Act>, k: Key) returns (m: nat, n: nat)
    requires Run(acts).Some? && ClockNeverRunsBackwards(acts)
    requires !FlowInOrder(Run(acts).value.accepted, k)
    ensures Overtakes(acts, k, m, n)
  {
    var xs := Run(acts).value.accepted;
    var i, j :| 0 <= i < j < |xs| && xs[i].key == k && xs[j].key == k && xs[j].Time() < xs[i].Time();
    AtEnd(acts);
    m := EmittedAt(acts, |acts|, i);
    n := EmittedAt(acts, |acts|, j);
    if n <= m {
      AcceptedGrows(acts, n, m);
    }
    EarlierStampHasSmallerNumber(acts, i, j);
    OutputAppends(acts, m, k);
    OutputAppends(acts, n, k);
    InFlightIsNumbered(acts, m, xs[i]);
    FlightOnlyEnds(acts, m, n, xs[j]);
  }

  /** Under a clock that never runs backwards, the records of a flow reach the ring buffer
      in the order of their timestamps if and only if none of them is emitted while one
      with an earlier stamp that will still be emitted is in flight. */
  lemma FlowIsInOrderIffNoneOvertakes(acts: seq<Act>, k: Key)
    requires Run(acts).Some? && ClockNeverRunsBackwards(acts)
    ensures FlowInOrder(Run(acts).value.accepted, k) <==> forall m, n :: !Overtakes(acts, k, m, n)
  {
    if FlowInOrder(Run(acts).value.accepted, k) {
      forall m: nat, n: nat
        ensures !Overtakes(acts, k, m, n)
      {
        if Overtakes(acts, k, m, n) {
          OvertakingBreaksOrder(acts, k, m, n);
        }
      }
    } else {
      var m, n := DisorderIsOvertaking(acts, k);
    }
  }

  // Ordered timestamps give disjoint measurements.

  ghost predicate OrderedWithin(ops: seq<Op>, k: Key) {
    forall i, j :: 0 <= i < j < |ops| && ops[i].Receive? && ops[j].Receive? && ops[i].key == k && ops[j].key == k
                   ==> ops[i].packet.timestamp <= ops[j].packet.timestamp
  }

  lemma {:induction false} ProjectionIsOrdered(ops: seq<Op>, k: Key)
    requires OrderedWithin(ReceivesOf(ops), k)
    ensures Ordered(Project(ops, k))
    ensures forall op :: op in Project(ops, k) && op.Receive? ==> op in ReceivesOf(ops) && op.key == k
    decreases |ops|
  {
    if |ops| > 0 {
      var front, op := ops[..|ops| - 1], ops[|ops| - 1];
      assert ReceivesOf(front) <= ReceivesOf(ops);
      assert OrderedWithin(ReceivesOf(front), k);
      ProjectionIsOrdered(front, k);
      if op.Receive? {
        assert ReceivesOf(ops)[|ReceivesOf(front)|] == op;
      }
    }
  }

  lemma HandledInOrder(xs: seq<Stamped>, handed: nat, handled: seq<Op>, underway: seq<Op>, k: Key)
    requires FlowInOrder(xs, k) && handed <= |xs| && handled + underway == OpsOf(xs[..handed])
    ensures OrderedWithin(handled, k)
  {
    assert forall i :: 0 <= i < |handled| ==> handled[i] == (handled + underway)[i];
  }

  lemma HistoryIsOrdered(acts: seq<Act>, k: Key)
    requires Run(acts).Some? && FlowInOrder(Run(acts).value.accepted, k)
    ensures Ordered(Project(History(acts), k))
  {
    var s := Run(acts).value;
    RecordsStayInOrder(acts);
    assert |s.consumed| <= |RecordsOf(s.accepted)|;
    HandledInOrder(s.accepted, |s.consumed|, ReceivesOf(History(acts)), Underway(s.consumer), k);
    ProjectionIsOrdered(History(acts), k);
  }

  /** If the clock never runs backwards and no record of the flow overtakes another, then
      in every interleaving no printed latency of the flow is negative, no two of its
      measurements overlap, and they add up to no more than the time from the first start
      to the last end. */
  lemma SteadyClockGivesDisjointMeasurements(acts: seq<Act>, k: Key)
    requires Run(acts).Some? && ClockNeverRunsBackwards(acts)
    requires forall m, n :: !Overtakes(acts, k, m, n)
    ensures var rs := ReportsOf(Run(acts).value.reports, k);
            Disjoint(rs) && (|rs| > 0 ==> 0 <= TotalLatency(rs) <= rs[|rs| - 1].End() - rs[0].start)
  {
    var s := Run(acts).value;
    FlowIsInOrderIffNoneOvertakes(acts, k);
    RunsAreLinearizable(acts);
    HistoryIsOrdered(acts, k);
    MeasurementsAreDisjoint(History(acts), k);
    DisjointSoFar(s.reports, Pending(s.consumer), k);
  }

  /** No two records of flow `k` are ever in flight together, as when one CPU handles it. */
  ghost predicate OneAtATime(acts: seq<Act>, k: Key)
    requires Run(acts).Some?
  {
    forall m: nat, x, y ::
      m <= |acts| && x in At(acts, m).inFlight && y in At(acts, m).inFlight && x.key == k && y.key == k ==> x == y
  }

  lemma NothingOvertakesAlone(acts: seq<Act>, k: Key)
    requires Run(acts).Some? && OneAtATime(acts, k)
    ensures forall m, n :: !Overtakes(acts, k, m, n)
  {
    forall m: nat, n: nat
      ensures !Overtakes(acts, k, m, n)
    {
      if Overtakes(acts, k, m, n) {
        OutputAppends(acts, m, k);
      }
    }
  }

  lemma OneAtATimeGivesDisjointMeasurements(acts: seq<Act>, k: Key)
    requires Run(acts).Some? && ClockNeverRunsBackwards(acts) && OneAtATime(acts, k)
    ensures var rs := ReportsOf(Run(acts).value.reports, k);
            Disjoint(rs) && (|rs| > 0 ==> 0 <= TotalLatency(rs) <= rs[|rs| - 1].End() - rs[0].start)
  {
    NothingOvertakesAlone(acts, k);
    SteadyClockGivesDisjointMeasurements(acts, k);
  }

  lemma DisjointSoFar(reports: seq<Report>, more: seq<Report>, k: Key)
    requires |more| <= 1 && Disjoint(ReportsOf(reports + more, k))
    ensures var rs := ReportsOf(reports, k);
            Disjoint(rs) && (|rs| > 0 ==> 0 <= TotalLatency(rs) <= rs[|rs| - 1].End() - rs[0].start)
  {
    ReportsOfAppend(reports, more, k);
    var rs, all := ReportsOf(reports, k), ReportsOf(reports + more, k);
    assert forall i :: 0 <= i < |rs| ==> rs[i] == all[i];
    if |rs| > 0 {
      TotalIsWithinSpan(rs);
    }
  }

  // Without that condition a steady clock is not enough.

  lemma StampsOfClock(acts: seq<Act>, skb: Skb, now: u64)
    requires Accepts(skb)
    ensures Stamps(acts + [Clock(skb, now)]) == Stamps(acts) + [Stamp(|Stamps(acts)|, skb, now)]
  {
    assert (acts + [Clock(skb, now)])[..|acts|] == acts;
  }

  /** Two records are buffered and nothing else has happened. */
  ghost predicate Buffered(s: State, x: Stamped, y: Stamped) {
    && s.ring == [x.record, y.record] && s.reader.Reading? && s.consumer.Selecting?
    && s.table == map[] && s.reports == []
  }

  lemma TwoStamped(udp: Skb, earlier: u64, later: u64) returns (acts: seq<Act>)
    requires Accepts(udp)
    ensures var x, y := Stamp(1, udp, later), Stamp(0, udp, earlier);
            && Stamps(acts) == [y, x]
            && Run(acts) == Some(INITIAL.(readings := 2, inFlight := INITIAL.inFlight + {y} + {x}))
  {
    ClockStep(INITIAL, udp, earlier, Stamp(0, udp, earlier));
    StampsOfClock([], udp, earlier);
    acts := Extend([], Clock(udp, earlier));
    ClockStep(Run(acts).value, udp, later, Stamp(1, udp, later));
    StampsOfClock(acts, udp, later);
    acts := Extend(acts, Clock(udp, later));
  }

  /** Two CPUs stamp datagrams of one flow, the second outputs first. */
  lemma ReorderedPairRuns(udp: Skb, earlier: u64, later: u64) returns (acts: seq<Act>)
    requires Accepts(udp)
    ensures Run(acts).Some? && Stamps(acts) == [Stamp(0, udp, earlier), Stamp(1, udp, later)]
    ensures Buffered(Run(acts).value, Stamp(1, udp, later), Stamp(0, udp, earlier))
  {
    var x, y := Stamp(1, udp, later), Stamp(0, udp, earlier);
    acts := TwoStamped(udp, earlier, later);
    OutputStep(Run(acts).value, x);
    acts := Extend(acts, Output(x, false));
    OutputStep(Run(acts).value, y);
    acts := Extend(acts, Output(y, false));
  }

  lemma HandleFirst(acts: seq<Act>, x: Stamped, y: Stamped) returns (longer: seq<Act>)
    requires Run(acts).Some? && Buffered(Run(acts).value, x, y)
    requires Decodes(x) && x.packet.protocol == UDP
    ensures Run(longer).Some? && SameClock(acts, longer)
    ensures var t := Run(longer).value;
            && t.ring == [y.record] && t.reader.Reading? && t.consumer.Selecting?
            && t.table == map[x.key := x.Time()] && t.reports == []
  {
    longer := Carry(acts, x.record, x.key, x.packet);
    longer := StoreFetched(longer, x.key, x.packet);
  }

  lemma HandleSecond(acts: seq<Act>, y: Stamped) returns (longer: seq<Act>)
    requires Run(acts).Some? && Decodes(y) && y.packet.protocol == UDP
    requires var s := Run(acts).value;
             s.ring == [y.record] && s.reader.Reading? && s.consumer.Selecting? && y.key in s.table
    ensures Run(longer).Some? && SameClock(acts, longer)
    ensures var s := Run(acts).value;
            Run(longer).value.reports == s.reports + [Report(y.key, s.table[y.key], y.packet, y.packet.ack)]
  {
    longer := Carry(acts, y.record, y.key, y.packet);
    longer := ReportFetched(longer, y.key, y.packet);
  }

  lemma DatagramStamp(id: nat, udp: Skb, now: u64)
    requires Accepts(udp) && udp.frame[23] == UDP
    ensures var x := Stamp(id, udp, now);
            Decodes(x) && x.key == KeyOfDatagrams(udp) && x.packet.protocol == UDP
  {
    StampOfDatagram(id, udp, now);
  }

  /** Two datagrams of one flow: one report, of the second against the first. */
  lemma HandlePair(acts: seq<Act>, udp: Skb, earlier: u64, later: u64) returns (longer: seq<Act>)
    requires Accepts(udp) && udp.frame[23] == UDP
    requires Run(acts).Some? && Buffered(Run(acts).value, Stamp(1, udp, later), Stamp(0, udp, earlier))
    ensures Run(longer).Some? && SameClock(acts, longer)
    ensures var reports := Run(longer).value.reports;
            |reports| == 1 && reports[0].start == later && reports[0].End() == earlier
  {
    DatagramStamp(1, udp, later);
    DatagramStamp(0, udp, earlier);
    longer := HandleFirst(acts, Stamp(1, udp, later), Stamp(0, udp, earlier));
    longer := HandleSecond(longer, Stamp(0, udp, earlier));
  }

  lemma PairIsSteady(acts: seq<Act>, udp: Skb, earlier: u64, later: u64)
    requires Accepts(udp) && earlier < later
    requires Stamps(acts) == [Stamp(0, udp, earlier), Stamp(1, udp, later)]
    ensures ClockNeverRunsBackwards(acts)
  {
  }

  /** A run with a steady clock that prints a negative latency. */
  lemma AnOvertakenDatagramHasNegativeLatency(udp: Skb, earlier: u64, later: u64) returns (acts: seq<Act>)
    requires Accepts(udp) && udp.frame[23] == UDP && earlier < later
    ensures Run(acts).Some? && ClockNeverRunsBackwards(acts)
    ensures var reports := Run(acts).value.reports;
            |reports| == 1 && reports[0].start == later && reports[0].End() == earlier && reports[0].Latency() < 0
  {
    acts := ReorderedPairRuns(udp, earlier, later);
    acts := HandlePair(acts, udp, earlier, later);
    PairIsSteady(acts, udp, earlier, later);
  }
}
