/** Runs of the pipeline step by step: the states a run passes through, and how to build
    runs that carry a frame to the table. */
module Schedules {
  import opened Bytes
  import opened Protocols
  import opened KernelFlow
  import opened Packets
  import opened FlowTables
  import opened Matching
  import opened Pipeline
  import opened PipelineSafety
  import Wire

  lemma {:induction false} RunPrefix(acts: seq<Act>, n: nat)
    requires Run(acts).Some? && n <= |acts|
    ensures Run(acts[..n]).Some?
    decreases |acts|
  {
    if n == |acts| {
      assert acts[..n] == acts;
    } else {
      RunFront(acts);
      RunPrefix(acts[..|acts| - 1], n);
      assert acts[..|acts| - 1][..n] == acts[..n];
    }
  }

  /** The state before step `n`, or at the end. */
  function At(acts: seq<Act>, n: nat): State
    requires Run(acts).Some? && n <= |acts|
  {
    RunPrefix(acts, n);
    Run(acts[..n]).value
  }

  lemma AtNext(acts: seq<Act>, n: nat)
    requires Run(acts).Some? && n < |acts|
    ensures Do(At(acts, n), acts[n]) == Some(At(acts, n + 1))
  {
    RunPrefix(acts, n + 1);
    RunFront(acts[..n + 1]);
    assert acts[..n + 1][..n] == acts[..n];
  }

  lemma AtStart(acts: seq<Act>)
    requires Run(acts).Some?
    ensures At(acts, 0) == INITIAL
  {
    assert acts[..0] == [];
  }

  lemma AtEnd(acts: seq<Act>)
    requires Run(acts).Some?
    ensures At(acts, |acts|) == Run(acts).value
  {
    assert acts[..|acts|] == acts;
  }

  /** The readings of the one monotonic clock that CPUs and pruner share, as the programs
      get them. */
  function Readings(acts: seq<Act>): seq<u64>
    decreases |acts|
  {
    if |acts| == 0 then [] else Readings(acts[..|acts| - 1]) + ReadingOf(acts[|acts| - 1])
  }

  function ReadingOf(a: Act): seq<u64> {
    if a.Clock? then [a.now] else if a.Tick? then [NanosSinceBoot(a.reading)] else []
  }

  ghost predicate Nondecreasing(ts: seq<u64>) {
    forall i, j :: 0 <= i < j < |ts| ==> ts[i] <= ts[j]
  }

  ghost predicate OneSteadyClock(acts: seq<Act>) {
    Nondecreasing(Readings(acts))
  }

  /** Neither program reads the clock on the way from `acts` to `longer`. */
  ghost predicate SameClock(acts: seq<Act>, longer: seq<Act>) {
    Readings(longer) == Readings(acts) && Stamps(longer) == Stamps(acts)
  }

  lemma Extend(acts: seq<Act>, a: Act) returns (longer: seq<Act>)
    requires Run(acts).Some? && Do(Run(acts).value, a).Some?
    ensures longer == acts + [a] && Run(longer) == Do(Run(acts).value, a)
    ensures if a.Clock? || a.Tick? then Readings(longer) == Readings(acts) + ReadingOf(a) else SameClock(acts, longer)
  {
    longer := acts + [a];
    assert longer[..|acts|] == acts;
  }

  lemma ClockStep(s: State, skb: Skb, now: u64, x: Stamped)
    requires Accepts(skb) && x == Stamp(s.readings, skb, now)
    ensures Do(s, Clock(skb, now)) == Some(s.(readings := s.readings + 1, inFlight := s.inFlight + {x}))
  {
  }

  lemma OutputStep(s: State, x: Stamped)
    requires x in s.inFlight
    ensures Do(s, Output(x, false))
            == Some(s.(inFlight := s.inFlight - {x}, accepted := s.accepted + [x], ring := s.ring + [x.record]))
  {
  }

  /** The goroutines between ring buffer and table have nothing to do. */
  predicate Idle(s: State) {
    s.ring == [] && s.reader.Reading? && s.consumer.Selecting?
  }

  /** The record at the head of the ring buffer travels up to the point where its packet
      is fetched. */
  lemma Carry(acts: seq<Act>, record: seq<byte>, k: Key, p: Packet) returns (longer: seq<Act>)
    requires Run(acts).Some? && Unmarshal(record) == Some(p) && FlowKey(p) == k
    requires var s := Run(acts).value;
             |s.ring| > 0 && s.ring[0] == record && s.reader.Reading? && s.consumer.Selecting?
    ensures Run(longer).Some? && SameClock(acts, longer)
    ensures var s, t := Run(acts).value, Run(longer).value;
            t == s.(consumer := Fetched(k, p), ring := s.ring[1..], consumed := s.consumed + [record])
  {
    longer := Extend(acts, Read);
    assert Run(longer).value == Run(acts).value.(reader := Holding(record), ring := Run(acts).value.ring[1..]);
    longer := Extend(longer, HandOff);
  }

  /** A fetched packet that opens a measurement is stored. */
  lemma StoreFetched(acts: seq<Act>, k: Key, p: Packet) returns (longer: seq<Act>)
    requires Run(acts).Some? && Run(acts).value.consumer == Fetched(k, p)
    requires Tracked(p.protocol) && Opens(p) && k !in Run(acts).value.table
    ensures Run(longer).Some? && SameClock(acts, longer)
    ensures var s, t := Run(acts).value, Run(longer).value;
            t == s.(consumer := Selecting, table := s.table[k := p.timestamp],
                    stores := s.stores + [(k, p.timestamp)], pruner := Remember(s.pruner, k, p.timestamp))
  {
    longer := Extend(acts, Consume);
    longer := Extend(longer, Consume);
  }

  lemma PrintFetched(acts: seq<Act>, k: Key, p: Packet) returns (longer: seq<Act>)
    requires Run(acts).Some? && Run(acts).value.consumer == Fetched(k, p)
    requires Tracked(p.protocol) && Closes(p) && k in Run(acts).value.table
    ensures Run(longer).Some? && SameClock(acts, longer)
    ensures var s := Run(acts).value;
            Run(longer).value
            == s.(consumer := Checking(k), reports := s.reports + [Report(k, s.table[k], p, p.ack)])
  {
    longer := Extend(acts, Consume);
    longer := Extend(longer, Consume);
  }

  lemma RemoveChecked(acts: seq<Act>, k: Key) returns (longer: seq<Act>)
    requires Run(acts).Some? && Run(acts).value.consumer == Checking(k) && k in Run(acts).value.table
    ensures Run(longer).Some? && SameClock(acts, longer)
    ensures var s := Run(acts).value;
            Run(longer).value == s.(consumer := Selecting, table := s.table - {k}, pruner := Forget(s.pruner, k))
  {
    longer := Extend(acts, Consume);
    longer := Extend(longer, Consume);
  }

  /** A fetched packet that closes a measurement is reported and its entry removed. */
  lemma ReportFetched(acts: seq<Act>, k: Key, p: Packet) returns (longer: seq<Act>)
    requires Run(acts).Some? && Run(acts).value.consumer == Fetched(k, p)
    requires Tracked(p.protocol) && Closes(p) && k in Run(acts).value.table
    ensures Run(longer).Some? && SameClock(acts, longer)
    ensures var s, t := Run(acts).value, Run(longer).value;
            t == s.(consumer := Selecting, table := s.table - {k}, pruner := Forget(s.pruner, k),
                    reports := s.reports + [Report(k, s.table[k], p, p.ack)])
  {
    longer := PrintFetched(acts, k, p);
    longer := RemoveChecked(longer, k);
  }

  /** The frame's datagram, with the clock as it is read for it. */
  function DatagramOf(udp: Skb, now: u64): Packet
    requires Accepts(udp)
  {
    Wire.ObservedPacket(udp.frame, now)
  }

  function KeyOfDatagrams(udp: Skb): Key
    requires Accepts(udp)
  {
    FlowKey(DatagramOf(udp, 0))
  }

  /** What the stamp of a datagram is to user space. */
  lemma StampOfDatagram(id: nat, udp: Skb, now: u64)
    requires Accepts(udp) && udp.frame[23] == UDP
    ensures var x, p := Stamp(id, udp, now), DatagramOf(udp, now);
            && Unmarshal(x.record) == Some(p) && x.packet == p
            && FlowKey(p) == KeyOfDatagrams(udp) == x.key
            && p.timestamp == now && Tracked(p.protocol) && Opens(p) && Closes(p)
  {
    Wire.RecordDecodesToObserved(udp, now);
    Wire.KeyIgnoresClock(udp.frame, now, 0);
  }

  /** Clock reading and output in one go. */
  lemma Offer(acts: seq<Act>, skb: Skb, now: u64) returns (longer: seq<Act>, x: Stamped)
    requires Run(acts).Some? && Accepts(skb)
    ensures Run(longer).Some? && Readings(longer) == Readings(acts) + [now]
    ensures var s, t := Run(acts).value, Run(longer).value;
            && x == Stamp(s.readings, skb, now)
            && t == s.(readings := t.readings, inFlight := t.inFlight, accepted := t.accepted,
                       ring := s.ring + [x.record])
  {
    x := Stamp(Run(acts).value.readings, skb, now);
    ClockStep(Run(acts).value, skb, now, x);
    longer := Extend(acts, Clock(skb, now));
    OutputStep(Run(longer).value, x);
    longer := Extend(longer, Output(x, false));
  }

  /** And on to the consumer. */
  lemma Deliver(acts: seq<Act>, udp: Skb, now: u64) returns (longer: seq<Act>)
    requires Accepts(udp) && udp.frame[23] == UDP
    requires Run(acts).Some? && Idle(Run(acts).value)
    ensures Run(longer).Some? && Readings(longer) == Readings(acts) + [now]
    ensures var s, t := Run(acts).value, Run(longer).value;
            && t.consumer == Fetched(KeyOfDatagrams(udp), DatagramOf(udp, now))
            && t.reader.Reading? && t.ring == [] && t.pruner == s.pruner
            && t.table == s.table && t.stores == s.stores && t.reports == s.reports && t.lost == s.lost
  {
    var x: Stamped;
    longer, x := Offer(acts, udp, now);
    StampOfDatagram(x.id, udp, now);
    longer := Carry(longer, x.record, KeyOfDatagrams(udp), DatagramOf(udp, now));
  }

  /** A datagram of a flow without an entry is stored. */
  lemma HandleOpening(acts: seq<Act>, udp: Skb, now: u64) returns (longer: seq<Act>)
    requires Accepts(udp) && udp.frame[23] == UDP
    requires Run(acts).Some? && Idle(Run(acts).value) && KeyOfDatagrams(udp) !in Run(acts).value.table
    ensures Run(longer).Some? && Idle(Run(longer).value) && Readings(longer) == Readings(acts) + [now]
    ensures var s, t, k := Run(acts).value, Run(longer).value, KeyOfDatagrams(udp);
            && t.table == s.table[k := now] && t.stores == s.stores + [(k, now)]
            && t.pruner == Remember(s.pruner, k, now) && t.reports == s.reports && t.lost == s.lost
  {
    StampOfDatagram(0, udp, now);
    longer := Deliver(acts, udp, now);
    longer := StoreFetched(longer, KeyOfDatagrams(udp), DatagramOf(udp, now));
  }

  /** A datagram of a flow with an entry is reported. */
  lemma HandleClosing(acts: seq<Act>, udp: Skb, now: u64) returns (longer: seq<Act>)
    requires Accepts(udp) && udp.frame[23] == UDP
    requires Run(acts).Some? && Idle(Run(acts).value) && KeyOfDatagrams(udp) in Run(acts).value.table
    ensures Run(longer).Some? && Idle(Run(longer).value) && Readings(longer) == Readings(acts) + [now]
    ensures var s, t, k := Run(acts).value, Run(longer).value, KeyOfDatagrams(udp);
            && t.table == s.table - {k} && t.stores == s.stores && t.pruner == Forget(s.pruner, k)
            && t.lost == s.lost
            && |t.reports| == |s.reports| + 1
  {
    StampOfDatagram(0, udp, now);
    longer := Deliver(acts, udp, now);
    longer := ReportFetched(longer, KeyOfDatagrams(udp), DatagramOf(udp, now));
  }

  /** A datagram closes the flow's entry and the next one opens another. */
  lemma ReplaceEntry(acts: seq<Act>, udp: Skb, now: u64) returns (longer: seq<Act>)
    requires Accepts(udp) && udp.frame[23] == UDP
    requires Run(acts).Some? && Idle(Run(acts).value) && KeyOfDatagrams(udp) in Run(acts).value.table
    ensures Run(longer).Some? && Idle(Run(longer).value) && Readings(longer) == Readings(acts) + [now, now]
    ensures var s, t, k := Run(acts).value, Run(longer).value, KeyOfDatagrams(udp);
            && t.table == (s.table - {k})[k := now] && t.pruner == Remember(Forget(s.pruner, k), k, now)
            && t.lost == s.lost
  {
    longer := HandleClosing(acts, udp, now);
    longer := HandleOpening(longer, udp, now);
  }
}
