/** The running program: the kernel program on any number of CPUs, ring buffer, reader
    goroutine, channel, consumer and the pruner goroutine, as a machine whose steps
    interleave freely. Every access to shared data is one step; what a goroutine does
    between two accesses is part of the first. */
module Pipeline {
  import opened Bytes
  import opened KernelFlow
  import opened Packets
  import opened FlowTables
  import opened Matching
  import Wire

  /** A record between the clock reading and the output to the ring buffer: the number of
      the clock reading, the bytes, and the flow key and packet of the frame it is for. */
  datatype Stamped = Stamped(id: nat, record: seq<byte>, key: Key, packet: Packet) {
    function Time(): u64 {
      packet.timestamp
    }
  }

  function Stamp(id: nat, skb: Skb, now: u64): (x: Stamped)
    requires Accepts(skb)
    ensures x.id == id && x.Time() == now
  {
    var packet := Wire.ObservedPacket(skb.frame, now);
    Stamped(id, Record(skb.frame, now), FlowKey(packet), packet)
  }

  datatype Reader = Reading | Holding(record: seq<byte>) | ReaderStopped

  datatype Consumer =
    | Selecting                                        // at the select statement
    | Fetched(key: Key, packet: Packet)                // decoded and hashed; Get is next
    | Storing(key: Key, packet: Packet)                // Get found nothing; Insert is next
    | Reporting(key: Key, packet: Packet, start: u64)  // Get found `start`; printing is next
    | Checking(key: Key)                               // Remove: its Load is next
    | Deleting(key: Key)                               // Remove: its Delete is next
    | Panicked
    | Cancelled

  /** A sweep remembers which keys it has visited, which ones the table has held without a
      break since it began, every mapping the table held at some time since then (any of
      which the iteration may show it), and how many stores there had been at that time. */
  datatype Sweep = Sweep(now: u64, visited: set<Key>, kept: set<Key>, seen: set<(Key, u64)>, mark: nat)

  datatype Pruner = Waiting | Ranging(sweep: Sweep) | Evicting(sweep: Sweep, key: Key)

  datatype State = State(
    readings: nat,                  // clock readings so far
    inFlight: set<Stamped>,         // stamped, not yet output; one for each CPU at work
    accepted: seq<Stamped>,         // what the ring buffer took, in order
    ring: seq<seq<byte>>,           // records still in it
    reader: Reader,
    consumed: seq<seq<byte>>,       // records handed to the consumer
    consumer: Consumer,
    pruner: Pruner,
    table: Table,
    stores: seq<(Key, u64)>,        // every Insert
    reports: seq<Report>,           // every printed line
    lost: seq<(Key, u64)>)          // entries a sweep deleted before a report claimed them

  const INITIAL := State(0, {}, [], [], Reading, [], Selecting, Waiting, map[], [], [], [])

  datatype Act =
    | Clock(skb: Skb, now: u64)                // a CPU reads the clock for a frame it records
    | Output(stamped: Stamped, refused: bool)  // a CPU outputs its record
    | Read | ReadError
    | HandOff | Cancel | Consume
    | Tick(reading: Option<Timespec>) | Visit(key: Key, value: u64) | RangeEnd | Delete

  /** The keys whose entry the consumer has reported, or is about to, and not yet removed. */
  function Claimed(c: Consumer): set<Key> {
    if c.Reporting? || c.Checking? || c.Deleting? then {c.key} else {}
  }

  function Remember(p: Pruner, k: Key, v: u64): Pruner {
    match p
    case Waiting => Waiting
    case Ranging(w) => Ranging(w.(seen := w.seen + {(k, v)}))
    case Evicting(w, e) => Evicting(w.(seen := w.seen + {(k, v)}), e)
  }

  function Forget(p: Pruner, k: Key): Pruner {
    match p
    case Waiting => Waiting
    case Ranging(w) => Ranging(w.(kept := w.kept - {k}))
    case Evicting(w, e) => Evicting(w.(kept := w.kept - {k}), e)
  }

  function DoConsume(s: State): Option<State> {
    match s.consumer
    case Fetched(k, p) =>
      Some(s.(consumer :=
             if !Tracked(p.protocol) then Selecting
             else if k !in s.table then (if Opens(p) then Storing(k, p) else Selecting)
             else if Closes(p) then Reporting(k, p, s.table[k])
             else Selecting))
    case Storing(k, p) =>
      Some(s.(consumer := Selecting, table := s.table[k := p.timestamp],
              stores := s.stores + [(k, p.timestamp)], pruner := Remember(s.pruner, k, p.timestamp)))
    case Reporting(k, p, start) =>
      Some(s.(consumer := Checking(k), reports := s.reports + [Report(k, start, p, p.ack)]))
    case Checking(k) =>
      Some(s.(consumer := if k in s.table then Deleting(k) else Selecting))
    case Deleting(k) =>
      Some(s.(consumer := Selecting, table := s.table - {k}, pruner := Forget(s.pruner, k)))
    case _ => None
  }

  function DoFeed(s: State, a: Act): Option<State>
    requires a.Clock? || a.Output? || a.Read? || a.ReadError? || a.HandOff? || a.Cancel?
  {
    match a
    case Clock(skb, now) =>
      if Accepts(skb)
      then Some(s.(readings := s.readings + 1, inFlight := s.inFlight + {Stamp(s.readings, skb, now)})) else None
    case Output(x, refused) =>
      if x !in s.inFlight then None
      else if refused then Some(s.(inFlight := s.inFlight - {x}))
      else Some(s.(inFlight := s.inFlight - {x}, accepted := s.accepted + [x], ring := s.ring + [x.record]))
    case Read =>
      if s.reader.Reading? && |s.ring| > 0
      then Some(s.(reader := Holding(s.ring[0]), ring := s.ring[1..])) else None
    case ReadError =>
      if s.reader.Reading? then Some(s.(reader := ReaderStopped)) else None
    case HandOff =>
      if s.reader.Holding? && s.consumer.Selecting? then
        var decoded := Unmarshal(s.reader.record);
        Some(s.(reader := Reading, consumed := s.consumed + [s.reader.record],
                consumer := if decoded.None? then Panicked else Fetched(FlowKey(decoded.value), decoded.value)))
      else None
    case Cancel =>
      if s.consumer.Selecting? then Some(s.(consumer := Cancelled)) else None
  }

  function DoPrune(s: State, a: Act): Option<State>
    requires a.Tick? || a.Visit? || a.RangeEnd? || a.Delete?
  {
    match a
    case Tick(reading) =>
      if s.pruner.Waiting?
      then
        var w := Sweep(NanosSinceBoot(reading), {}, s.table.Keys, Live(s.table), |s.stores|);
        Some(s.(pruner := Ranging(w)))
      else None
    case Visit(k, v) =>
      if s.pruner.Ranging? && k !in s.pruner.sweep.visited && (k, v) in s.pruner.sweep.seen then
        var w := s.pruner.sweep;
        Some(s.(pruner := if Stale(w.now, v) then Evicting(w.(visited := w.visited + {k}), k) else Waiting))
      else None
    case RangeEnd =>
      // An iteration visits every key that is neither stored nor deleted meanwhile.
      if s.pruner.Ranging? && s.pruner.sweep.kept <= s.pruner.sweep.visited then Some(s.(pruner := Waiting)) else None
    case Delete =>
      if s.pruner.Evicting? then
        var e := s.pruner.key;
        var lost := if e in s.table && e !in Claimed(s.consumer) then [(e, s.table[e])] else [];
        Some(s.(pruner := Forget(Ranging(s.pruner.sweep), e), table := s.table - {e}, lost := s.lost + lost))
      else None
  }

  /** One step, if it is enabled. */
  function Do(s: State, a: Act): Option<State> {
    if a.Consume? then DoConsume(s)
    else if a.Tick? || a.Visit? || a.RangeEnd? || a.Delete? then DoPrune(s, a)
    else DoFeed(s, a)
  }

  /** The state after a whole run, if every step of it is enabled when its turn comes. */
  function Run(acts: seq<Act>): Option<State>
    decreases |acts|
  {
    if |acts| == 0 then Some(INITIAL)
    else
      var before := Run(acts[..|acts| - 1]);
      if before.None? then None else Do(before.value, acts[|acts| - 1])
  }

  lemma RunFront(acts: seq<Act>)
    requires Run(acts).Some? && |acts| > 0
    ensures var before := Run(acts[..|acts| - 1]);
            before.Some? && Do(before.value, acts[|acts| - 1]) == Run(acts)
  {
  }

  // Linearization: each packet and each eviction takes effect at one step.

  /** The operations that take effect at step `a` from `s`: a packet that stores does so at
      its Insert, any other packet at its Get, an eviction at its Delete. */
  function Effect(s: State, a: Act): seq<Op> {
    if a.Delete? && s.pruner.Evicting? then [Evict(s.pruner.key)]
    else if a.Consume? && s.consumer.Storing? then [Receive(s.consumer.key, s.consumer.packet)]
    else if a.Consume? && s.consumer.Fetched? && !DoConsume(s).value.consumer.Storing?
    then [Receive(s.consumer.key, s.consumer.packet)]
    else []
  }

  /** The operations of a run in the order in which they took effect. */
  function History(acts: seq<Act>): seq<Op>
    requires Run(acts).Some?
    decreases |acts|
  {
    if |acts| == 0 then []
    else
      RunFront(acts);
      History(acts[..|acts| - 1]) + Effect(Run(acts[..|acts| - 1]).value, acts[|acts| - 1])
  }

  /** A report that has taken effect but is not printed yet. */
  function Pending(c: Consumer): seq<Report> {
    if c.Reporting? then [Report(c.key, c.start, c.packet, c.packet.ack)] else []
  }

  /** The state agrees with the operations done one after the other. */
  ghost predicate Refines(s: State, ops: seq<Op>) {
    var l := Exec(ops);
    && l.table == s.table - Claimed(s.consumer)
    && l.stores == s.stores
    && l.reports == s.reports + Pending(s.consumer)
    && l.evicted == s.lost
    && (s.consumer.Storing? ==>
          Tracked(s.consumer.packet.protocol) && Opens(s.consumer.packet) && s.consumer.key !in s.table)
  }

  lemma ConsumeRefines(s: State, ops: seq<Op>)
    requires Refines(s, ops) && DoConsume(s).Some?
    ensures Refines(DoConsume(s).value, ops + Effect(s, Consume))
  {
    var effect := Effect(s, Consume);
    if |effect| == 1 {
      ExecAppend(ops, effect[0]);
    } else {
      assert ops + effect == ops;
    }
  }

  lemma PruneRefines(s: State, a: Act, ops: seq<Op>)
    requires a.Tick? || a.Visit? || a.RangeEnd? || a.Delete?
    requires Refines(s, ops) && DoPrune(s, a).Some?
    ensures Refines(DoPrune(s, a).value, ops + Effect(s, a))
  {
    if a.Delete? {
      ExecAppend(ops, Evict(s.pruner.key));
    } else {
      assert ops + Effect(s, a) == ops;
    }
  }

  lemma FeedRefines(s: State, a: Act, ops: seq<Op>)
    requires a.Clock? || a.Output? || a.Read? || a.ReadError? || a.HandOff? || a.Cancel?
    requires Refines(s, ops) && DoFeed(s, a).Some?
    ensures Refines(DoFeed(s, a).value, ops + Effect(s, a))
  {
    assert ops + Effect(s, a) == ops;
  }

  /** Every interleaving of the consumer with the pruner has the effect of handling the
      packets and evictions one after the other, in the order of History. */
  lemma {:induction false} RunsAreLinearizable(acts: seq<Act>)
    requires Run(acts).Some?
    ensures Refines(Run(acts).value, History(acts))
    decreases |acts|
  {
    if |acts| > 0 {
      RunFront(acts);
      var front, a := acts[..|acts| - 1], acts[|acts| - 1];
      var s := Run(front).value;
      RunsAreLinearizable(front);
      if a.Consume? {
        ConsumeRefines(s, History(front));
      } else if a.Tick? || a.Visit? || a.RangeEnd? || a.Delete? {
        PruneRefines(s, a, History(front));
      } else {
        FeedRefines(s, a, History(front));
      }
    }
  }
}
