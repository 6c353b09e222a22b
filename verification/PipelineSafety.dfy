/** What every run of the pipeline keeps, whatever the interleaving. */
module PipelineSafety {
  import opened Bytes
  import opened KernelFlow
  import opened Packets
  import opened Matching
  import opened Pipeline
  import Wire

  // From the frames to the ring buffer.

  /** The clock readings of a run, each with the record of the frame it was made for. */
  function Stamps(acts: seq<Act>): seq<Stamped>
    decreases |acts|
  {
    if |acts| == 0 then []
    else
      var front, a := Stamps(acts[..|acts| - 1]), acts[|acts| - 1];
      if a.Clock? && Accepts(a.skb) then front + [Stamp(|front|, a.skb, a.now)] else front
  }

  /** Each record in flight or accepted is that of its own clock reading, and is in one
      place only. */
  ghost predicate Genuine(s: State, stamps: seq<Stamped>) {
    && s.readings == |stamps|
    && (forall x :: x in s.inFlight ==> x.id < |stamps| && stamps[x.id] == x)
    && (forall i :: 0 <= i < |s.accepted| ==>
          s.accepted[i].id < |stamps| && stamps[s.accepted[i].id] == s.accepted[i] && s.accepted[i] !in s.inFlight)
    && (forall i, j :: 0 <= i < j < |s.accepted| ==> s.accepted[i] != s.accepted[j])
  }

  /** What one CPU does alone, the ring buffer refusing when it is full, is what one call of
      the C program does. */
  lemma LoneCpuIsReceived(s: State, capacity: nat, skb: Skb, now: u64)
    ensures Do(s, Clock(skb, now)).Some? <==> Accepts(skb)
    ensures Accepts(skb) ==>
              var output := Output(Stamp(s.readings, skb, now), |s.ring| >= capacity);
              var after := Do(Do(s, Clock(skb, now)).value, output);
              after.Some? && after.value.ring == Received(s.ring, capacity, skb, now)
    ensures !Accepts(skb) ==> Received(s.ring, capacity, skb, now) == s.ring
  {
  }

  /** Steps after the ring buffer leave its history and the CPUs alone. */
  lemma OnlyCpusAccept(s: State, a: Act)
    requires Do(s, a).Some? && !a.Clock? && !a.Output?
    ensures var t := Do(s, a).value;
            t.readings == s.readings && t.inFlight == s.inFlight && t.accepted == s.accepted
  {
  }

  lemma ClockKeepsGenuine(s: State, stamps: seq<Stamped>, skb: Skb, now: u64)
    requires Accepts(skb) && Genuine(s, stamps)
    ensures Genuine(DoFeed(s, Clock(skb, now)).value, stamps + [Stamp(|stamps|, skb, now)])
  {
  }

  lemma OutputKeepsGenuine(s: State, stamps: seq<Stamped>, x: Stamped, refused: bool)
    requires x in s.inFlight && Genuine(s, stamps)
    ensures Genuine(DoFeed(s, Output(x, refused)).value, stamps)
  {
  }

  lemma {:induction false} RecordsAreGenuine(acts: seq<Act>)
    requires Run(acts).Some?
    ensures Genuine(Run(acts).value, Stamps(acts))
    decreases |acts|
  {
    if |acts| > 0 {
      RunFront(acts);
      var front, a := acts[..|acts| - 1], acts[|acts| - 1];
      var s := Run(front).value;
      RecordsAreGenuine(front);
      if a.Clock? {
        ClockKeepsGenuine(s, Stamps(front), a.skb, a.now);
      } else if a.Output? {
        OutputKeepsGenuine(s, Stamps(front), a.stamped, a.refused);
      } else {
        OnlyCpusAccept(s, a);
      }
    }
  }

  /** The bytes decode to the packet, and the key is the packet's. */
  ghost predicate Decodes(x: Stamped) {
    x.key == FlowKey(x.packet) && Unmarshal(x.record) == Some(x.packet)
  }

  lemma StampDecodes(id: nat, skb: Skb, now: u64)
    requires Accepts(skb)
    ensures Decodes(Stamp(id, skb, now))
  {
    Wire.RecordDecodesToObserved(skb, now);
  }

  /** Whatever is recorded decodes to the packet of its frame. */
  lemma {:induction false} StampsDecode(acts: seq<Act>, n: nat)
    requires n < |Stamps(acts)|
    ensures Decodes(Stamps(acts)[n])
    decreases |acts|
  {
    var front, a := acts[..|acts| - 1], acts[|acts| - 1];
    if n < |Stamps(front)| {
      StampsDecode(front, n);
    } else {
      StampDecodes(n, a.skb, a.now);
    }
  }

  /** Every record the ring buffer took is the one of a clock reading of the run, no two of
      the same, and decodes to the packet of the frame that reading was made for. */
  lemma {:induction false} RecordsDecode(acts: seq<Act>)
    requires Run(acts).Some?
    ensures var accepted := Run(acts).value.accepted;
            && (forall i :: 0 <= i < |accepted| ==> accepted[i] in Stamps(acts) && Decodes(accepted[i]))
            && (forall i, j :: 0 <= i < j < |accepted| ==> accepted[i].id != accepted[j].id)
  {
    RecordsAreGenuine(acts);
    var accepted, stamps := Run(acts).value.accepted, Stamps(acts);
    forall i | 0 <= i < |accepted|
      ensures accepted[i] in stamps && Decodes(accepted[i])
    {
      StampsDecode(acts, accepted[i].id);
    }
  }

  // From the ring buffer to the consumer: nothing lost, nothing reordered.

  function RecordsOf(xs: seq<Stamped>): seq<seq<byte>> {
    seq(|xs|, i requires 0 <= i < |xs| => xs[i].record)
  }

  /** What user space is to do with the records. */
  function OpsOf(xs: seq<Stamped>): seq<Op> {
    seq(|xs|, i requires 0 <= i < |xs| => Receive(xs[i].key, xs[i].packet))
  }

  function Held(r: Reader): seq<seq<byte>> {
    if r.Holding? then [r.record] else []
  }

  /** The operation the consumer works on before it takes effect. */
  function Underway(c: Consumer): seq<Op> {
    if c.Fetched? || c.Storing? then [Receive(c.key, c.packet)] else []
  }

  function ReceivesOf(ops: seq<Op>): seq<Op>
    decreases |ops|
  {
    if |ops| == 0 then []
    else ReceivesOf(ops[..|ops| - 1]) + (if ops[|ops| - 1].Receive? then [ops[|ops| - 1]] else [])
  }

  lemma ReceivesOfAppend(ops: seq<Op>, op: Op)
    ensures ReceivesOf(ops + [op]) == ReceivesOf(ops) + (if op.Receive? then [op] else [])
  {
    assert (ops + [op])[..|ops|] == ops;
  }

  /** No record is lost or reordered between ring buffer and consumer. */
  ghost predicate BytesInOrder(s: State) {
    RecordsOf(s.accepted) == s.consumed + Held(s.reader) + s.ring
  }

  /** The accepted records the consumer has been handed. */
  function Handed(s: State): seq<Stamped> {
    if |s.consumed| <= |s.accepted| then s.accepted[..|s.consumed|] else []
  }

  /** What has taken effect, then what is underway, is what was handed over. */
  ghost predicate OpsInOrder(c: Consumer, handed: seq<Stamped>, done: seq<Op>) {
    !c.Panicked? && ReceivesOf(done) + Underway(c) == OpsOf(handed)
  }

  lemma StepKeepsBytes(s: State, a: Act)
    requires Do(s, a).Some? && BytesInOrder(s)
    ensures BytesInOrder(Do(s, a).value)
    ensures !a.HandOff? ==> Handed(Do(s, a).value) == Handed(s)
  {
    if a.Output? && !a.refused {
      OutputKeepsBytes(s, a.stamped);
    } else if a.Read? || a.HandOff? {
      ReaderKeepsBytes(s, a);
    } else {
      OtherStepsKeepBytes(s, a);
    }
  }

  lemma OutputKeepsBytes(s: State, x: Stamped)
    requires x in s.inFlight && BytesInOrder(s)
    ensures var t := DoFeed(s, Output(x, false)).value; BytesInOrder(t) && Handed(t) == Handed(s)
  {
    assert RecordsOf(s.accepted + [x]) == RecordsOf(s.accepted) + [x.record];
    assert |s.consumed| <= |RecordsOf(s.accepted)|;
  }

  lemma ReaderKeepsBytes(s: State, a: Act)
    requires a.Read? || a.HandOff?
    requires BytesInOrder(s) && DoFeed(s, a).Some?
    ensures var t := DoFeed(s, a).value; BytesInOrder(t) && t.accepted == s.accepted
    ensures a.Read? ==> Handed(DoFeed(s, a).value) == Handed(s)
  {
  }

  lemma OtherStepsKeepBytes(s: State, a: Act)
    requires !(a.Output? && !a.refused) && !a.Read? && !a.HandOff? && Do(s, a).Some?
    ensures var t := Do(s, a).value;
            && t.accepted == s.accepted && t.consumed == s.consumed
            && t.ring == s.ring && Held(t.reader) == Held(s.reader)
  {
  }

  lemma ConsumeMovesOn(s: State)
    requires DoConsume(s).Some?
    ensures Underway(s.consumer) == Effect(s, Consume) + Underway(DoConsume(s).value.consumer)
    ensures |Effect(s, Consume)| <= 1 && (Effect(s, Consume) != [] ==> Effect(s, Consume)[0].Receive?)
    ensures !DoConsume(s).value.consumer.Panicked?
  {
  }

  lemma ReceiveMovesOn(done: seq<Op>, effect: seq<Op>, underway: seq<Op>)
    requires |effect| <= 1 && (effect != [] ==> effect[0].Receive?)
    ensures ReceivesOf(done + effect) + underway == ReceivesOf(done) + (effect + underway)
  {
    if effect == [] {
      assert done + effect == done;
    } else {
      assert effect == [effect[0]];
      ReceivesOfAppend(done, effect[0]);
    }
  }

  lemma ConsumeKeepsOps(s: State, handed: seq<Stamped>, done: seq<Op>)
    requires OpsInOrder(s.consumer, handed, done) && DoConsume(s).Some?
    ensures OpsInOrder(DoConsume(s).value.consumer, handed, done + Effect(s, Consume))
  {
    ConsumeMovesOn(s);
    ReceiveMovesOn(done, Effect(s, Consume), Underway(DoConsume(s).value.consumer));
  }

  lemma PruneKeepsOps(s: State, a: Act, done: seq<Op>)
    requires a.Tick? || a.Visit? || a.RangeEnd? || a.Delete?
    requires DoPrune(s, a).Some?
    ensures DoPrune(s, a).value.consumer == s.consumer
    ensures ReceivesOf(done + Effect(s, a)) == ReceivesOf(done)
  {
    if a.Delete? {
      ReceivesOfAppend(done, Evict(s.pruner.key));
    } else {
      assert done + Effect(s, a) == done;
    }
  }

  /** The record handed over is the next accepted one. */
  lemma HandOffTakesTheNext(s: State)
    requires BytesInOrder(s) && DoFeed(s, HandOff).Some?
    ensures |s.consumed| < |s.accepted| && s.accepted[|s.consumed|].record == s.reader.record
    ensures Handed(DoFeed(s, HandOff).value) == Handed(s) + [s.accepted[|s.consumed|]]
  {
    assert RecordsOf(s.accepted)[|s.consumed|] == s.reader.record;
  }

  lemma HandOffKeepsOps(s: State, x: Stamped, done: seq<Op>)
    requires DoFeed(s, HandOff).Some? && x.record == s.reader.record && Decodes(x)
    requires OpsInOrder(s.consumer, Handed(s), done)
    ensures OpsInOrder(DoFeed(s, HandOff).value.consumer, Handed(s) + [x], done)
  {
    assert DoFeed(s, HandOff).value.consumer == Fetched(x.key, x.packet);
    assert OpsOf(Handed(s) + [x]) == OpsOf(Handed(s)) + [Receive(x.key, x.packet)];
  }

  lemma OtherStepsKeepOps(s: State, a: Act)
    requires a.Clock? || a.Output? || a.Read? || a.ReadError? || a.Cancel?
    requires DoFeed(s, a).Some?
    ensures var c, d := s.consumer, DoFeed(s, a).value.consumer;
            Underway(d) == Underway(c) && (d.Panicked? ==> c.Panicked?)
  {
  }

  /** In every reachable state the records the ring buffer took are, in order, those handed
      to the consumer, at most one held by the reader, and those still buffered; the decoder
      never panics; and the packets that have taken effect, followed by the one being worked
      on, are exactly those of the records handed over. */
  lemma {:induction false} RecordsStayInOrder(acts: seq<Act>)
    requires Run(acts).Some?
    ensures var s := Run(acts).value;
            BytesInOrder(s) && OpsInOrder(s.consumer, Handed(s), History(acts))
    decreases |acts|
  {
    if |acts| > 0 {
      RunFront(acts);
      var front, a := acts[..|acts| - 1], acts[|acts| - 1];
      var s, done := Run(front).value, History(front);
      RecordsStayInOrder(front);
      StepKeepsBytes(s, a);
      if a.Consume? {
        ConsumeKeepsOps(s, Handed(s), done);
      } else if a.Tick? || a.Visit? || a.RangeEnd? || a.Delete? {
        PruneKeepsOps(s, a, done);
      } else {
        assert Effect(s, a) == [] && done + [] == done;
        if a.HandOff? {
          RecordsDecode(front);
          HandOffTakesTheNext(s);
          HandOffKeepsOps(s, s.accepted[|s.consumed|], done);
        } else {
          OtherStepsKeepOps(s, a);
        }
      }
    }
  }

  // Conservation of measurements.

  /** At every moment: each store has been reported or is about to be, or is live, or was
      lost to a sweep before it was matched, and only one of these. */
  lemma {:induction false} MeasurementsAreConserved(acts: seq<Act>)
    requires Run(acts).Some?
    ensures var s := Run(acts).value;
            multiset(s.stores) == multiset(Starts(s.reports + Pending(s.consumer)))
                                  + multiset(Live(s.table - Claimed(s.consumer))) + multiset(s.lost)
  {
    RunsAreLinearizable(acts);
    StoresAreConserved(History(acts));
  }

  /** A store never finds its key in the table, however the pruner runs meanwhile. */
  lemma {:induction false} StoresNeverOverwrite(acts: seq<Act>)
    requires Run(acts).Some? && Run(acts).value.consumer.Storing?
    ensures Run(acts).value.consumer.key !in Run(acts).value.table
  {
    RunsAreLinearizable(acts);
  }

  /** What is about to be printed is measured from the most recent store of the flow,
      even if a sweep has deleted that entry in the meantime. */
  lemma {:induction false} ReportsMeasureFromTheLatestInsert(acts: seq<Act>)
    requires Run(acts).Some? && Run(acts).value.consumer.Reporting?
    ensures var s := Run(acts).value;
            LatestStore(s.stores, s.consumer.key) == Some(s.consumer.start)
    decreases |acts|
  {
    RunFront(acts);
    var front, a := acts[..|acts| - 1], acts[|acts| - 1];
    var before := Run(front).value;
    ReportingBegins(before, a);
    if before.consumer.Reporting? {
      ReportsMeasureFromTheLatestInsert(front);
    } else {
      RunsAreLinearizable(front);
      TableHoldsLatestStores(History(front), before.consumer.key);
    }
  }

  lemma ReportingBegins(s: State, a: Act)
    requires Do(s, a).Some? && Do(s, a).value.consumer.Reporting?
    ensures var t := Do(s, a).value;
            && t.stores == s.stores
            && if s.consumer.Reporting? then t.consumer == s.consumer
               else s.consumer.Fetched? && t.consumer.key == s.consumer.key
                    && s.consumer.key in s.table && t.consumer.start == s.table[s.consumer.key]
  {
  }

  /** Whenever the consumer is back at its select, each flow's entry and printed reports are
      those of the flow's own automaton, run on its own packets and evictions. */
  lemma {:induction false} FlowsStayIndependent(acts: seq<Act>, k: Key)
    requires Run(acts).Some? && Run(acts).value.consumer.Selecting?
    ensures var s := Run(acts).value;
            (SlotOf(s.table, k), ReportsOf(s.reports, k)) == Track(Absent, Project(History(acts), k), k)
  {
    RunsAreLinearizable(acts);
    FlowsAreIndependent(History(acts), k);
    var s := Run(acts).value;
    assert s.table - {} == s.table && s.reports + [] == s.reports;
  }
}
