/** What whole runs of the matcher measure. */
module Runs {
  import opened Bytes
  import opened Protocols
  import opened Packets
  import opened Matching

  // Ordered timestamps give disjoint measurements, with or without evictions.

  ghost predicate Ordered(ops: seq<Op>) {
    forall i, j :: 0 <= i < j < |ops| && ops[i].Receive? && ops[j].Receive? ==>
                     ops[i].packet.timestamp <= ops[j].packet.timestamp
  }

  ghost predicate NotBefore(ops: seq<Op>, floor: u64) {
    forall i :: 0 <= i < |ops| && ops[i].Receive? ==> floor <= ops[i].packet.timestamp
  }

  ghost predicate Disjoint(rs: seq<Report>) {
    && (forall i :: 0 <= i < |rs| ==> rs[i].start <= rs[i].End())
    && (forall i, j :: 0 <= i < j < |rs| ==> rs[i].End() <= rs[j].start)
  }

  function TotalLatency(rs: seq<Report>): int
    decreases |rs|
  {
    if |rs| == 0 then 0 else rs[0].Latency() + TotalLatency(rs[1..])
  }

  lemma {:induction false} TrackKeepsOrder(s: Slot, ops: seq<Op>, k: Key, floor: u64)
    requires Ordered(ops) && NotBefore(ops, floor)
    requires s.Present? ==> floor <= s.since && NotBefore(ops, s.since)
    ensures Disjoint(Track(s, ops, k).1)
    ensures forall i :: 0 <= i < |Track(s, ops, k).1| ==> floor <= Track(s, ops, k).1[i].start
    decreases |ops|
  {
    if |ops| > 0 {
      var next := NextSlot(s, ops[0]);
      var now := if ops[0].Receive? then ops[0].packet.timestamp else floor;
      TrackKeepsOrder(next, ops[1..], k, if next.Present? then floor else now);
    }
  }

  lemma {:induction false} TotalIsWithinSpan(rs: seq<Report>)
    requires Disjoint(rs) && |rs| > 0
    ensures 0 <= TotalLatency(rs) <= rs[|rs| - 1].End() - rs[0].start
    decreases |rs|
  {
    if |rs| > 1 {
      TotalIsWithinSpan(rs[1..]);
    } else {
      assert TotalLatency(rs[1..]) == 0;
    }
  }

  /** If the packets of one flow come with nondecreasing timestamps, then whatever the other
      flows do and whatever is evicted, no latency is negative, no two measured intervals
      overlap, and together they fit between the first start and the last end. */
  lemma MeasurementsAreDisjoint(ops: seq<Op>, k: Key)
    requires Ordered(Project(ops, k))
    ensures var rs := ReportsOf(Exec(ops).reports, k);
            Disjoint(rs) && (|rs| > 0 ==> 0 <= TotalLatency(rs) <= rs[|rs| - 1].End() - rs[0].start)
  {
    FlowsAreIndependent(ops, k);
    TrackKeepsOrder(Absent, Project(ops, k), k, 0);
    var rs := ReportsOf(Exec(ops).reports, k);
    if |rs| > 0 {
      TotalIsWithinSpan(rs);
    }
  }

  // TCP: from the first SYN to the next ACK.

  ghost predicate AllOf(ps: seq<Packet>, protocol: byte) {
    forall i :: 0 <= i < |ps| ==> ps[i].protocol == protocol
  }

  function Receives(ps: seq<Packet>, k: Key): (ops: seq<Op>)
    ensures |ops| == |ps|
  {
    seq(|ps|, i requires 0 <= i < |ps| => Receive(k, ps[i]))
  }

  /** The line of the first handshake at `from` or behind: of the first SYN and the first ACK
      after it, with the time between them. */
  ghost predicate IsHandshake(ps: seq<Packet>, k: Key, from: nat, syn: nat, ack: nat, r: Report) {
    && from <= syn < ack < |ps|
    && ps[syn].syn && (forall i :: from <= i < syn ==> !ps[i].syn)
    && ps[ack].ack && (forall i :: syn < i < ack ==> !ps[i].ack)
    && r == Report(k, ps[syn].timestamp, ps[ack], true)
    && r.Latency() == (ps[ack].timestamp as int) - (ps[syn].timestamp as int)
  }

  /** There is no further handshake, and the first SYN, if there is one, is still waiting. */
  ghost predicate IsLeftover(ps: seq<Packet>, from: nat, end: Slot) {
    match end
    case Absent => forall i :: from <= i < |ps| ==> !ps[i].syn
    case Present(since) =>
      exists syn :: from <= syn < |ps|
                    && ps[syn].syn && ps[syn].timestamp == since
                    && (forall i :: from <= i < syn ==> !ps[i].syn)
                    && (forall i :: syn < i < |ps| ==> !ps[i].ack)
  }

  /** The lines are those of the handshakes with their SYN and ACK at these places, each
      search beginning behind the handshake before, and `end` is what is left. */
  ghost predicate AreHandshakes(ps: seq<Packet>, k: Key, from: nat, places: seq<(nat, nat)>,
                                end: Slot, rs: seq<Report>)
    decreases |places|
  {
    if |places| == 0 then rs == [] && IsLeftover(ps, from, end)
    else
      && |rs| > 0 && IsHandshake(ps, k, from, places[0].0, places[0].1, rs[0])
      && AreHandshakes(ps, k, places[0].1 + 1, places[1..], end, rs[1..])
  }

  lemma ReceivesTail(ps: seq<Packet>, k: Key)
    requires |ps| > 0
    ensures Receives(ps, k)[0] == Receive(k, ps[0]) && Receives(ps, k)[1..] == Receives(ps[1..], k)
  {
  }

  /** What the automaton does from packet `at` on. */
  function TrackFrom(s: Slot, ps: seq<Packet>, k: Key, at: nat): (Slot, seq<Report>)
    requires at <= |ps|
    decreases |ps| - at
  {
    if at == |ps| then (s, [])
    else
      var op := Receive(k, ps[at]);
      var (end, rs) := TrackFrom(NextSlot(s, op), ps, k, at + 1);
      (end, SlotReport(s, op, k) + rs)
  }

  lemma {:induction false} TrackFromIsTrack(s: Slot, ps: seq<Packet>, k: Key, at: nat)
    requires at <= |ps|
    ensures TrackFrom(s, ps, k, at) == Track(s, Receives(ps[at..], k), k)
    decreases |ps| - at
  {
    if at < |ps| {
      ReceivesTail(ps[at..], k);
      assert ps[at..][1..] == ps[at + 1..];
      TrackFromIsTrack(NextSlot(s, Receive(k, ps[at])), ps, k, at + 1);
    }
  }

  /** A packet that is not reported. */
  lemma TrackSilently(s: Slot, ps: seq<Packet>, k: Key, at: nat, next: Slot)
    requires at < |ps| && ps[at].protocol == TCP && (s.Absent? || !ps[at].ack)
    requires next == if s.Absent? && ps[at].syn then Present(ps[at].timestamp) else s
    ensures TrackFrom(s, ps, k, at) == TrackFrom(next, ps, k, at + 1)
  {
    var rs := TrackFrom(next, ps, k, at + 1).1;
    assert [] + rs == rs;
  }

  lemma PlacesPrepend(ps: seq<Packet>, k: Key, from: nat, syn: nat, ack: nat, r: Report,
                      places: seq<(nat, nat)>, end: Slot, rs: seq<Report>)
    requires IsHandshake(ps, k, from, syn, ack, r) && AreHandshakes(ps, k, ack + 1, places, end, rs)
    ensures AreHandshakes(ps, k, from, [(syn, ack)] + places, end, [r] + rs)
  {
    assert ([(syn, ack)] + places)[1..] == places && ([r] + rs)[1..] == rs;
  }

  lemma HandshakeHere(ps: seq<Packet>, k: Key, from: nat, syn: nat, ack: nat)
    requires from <= syn < ack < |ps| && ps[syn].syn && ps[ack].ack
    requires (forall i :: from <= i < syn ==> !ps[i].syn) && (forall i :: syn < i < ack ==> !ps[i].ack)
    ensures IsHandshake(ps, k, from, syn, ack, Report(k, ps[syn].timestamp, ps[ack], true))
  {
  }

  /** The places belong to what the automaton does from packet `at` on in state `s`. */
  ghost predicate TracksHandshakes(s: Slot, ps: seq<Packet>, k: Key, at: nat, from: nat, places: seq<(nat, nat)>)
    requires at <= |ps|
  {
    var (end, rs) := TrackFrom(s, ps, k, at);
    AreHandshakes(ps, k, from, places, end, rs)
  }

  lemma LiveAtTheEnd(ps: seq<Packet>, k: Key, from: nat, syn: nat)
    requires from <= syn < |ps| && ps[syn].syn
    requires (forall i :: from <= i < syn ==> !ps[i].syn) && (forall i :: syn < i < |ps| ==> !ps[i].ack)
    ensures TracksHandshakes(Present(ps[syn].timestamp), ps, k, |ps|, from, [])
  {
  }

  lemma LiveAtAnAck(ps: seq<Packet>, k: Key, from: nat, syn: nat, at: nat, rest: seq<(nat, nat)>)
    requires from <= syn < at < |ps| && ps[syn].syn && ps[at].ack && ps[at].protocol == TCP
    requires (forall i :: from <= i < syn ==> !ps[i].syn) && (forall i :: syn < i < at ==> !ps[i].ack)
    requires TracksHandshakes(Absent, ps, k, at + 1, at + 1, rest)
    ensures TracksHandshakes(Present(ps[syn].timestamp), ps, k, at, from, [(syn, at)] + rest)
  {
    var since := ps[syn].timestamp;
    HandshakeHere(ps, k, from, syn, at);
    var (end, rs) := TrackFrom(Absent, ps, k, at + 1);
    PlacesPrepend(ps, k, from, syn, at, Report(k, since, ps[at], true), rest, end, rs);
  }

  lemma Silently(s: Slot, ps: seq<Packet>, k: Key, at: nat, next: Slot, from: nat, places: seq<(nat, nat)>)
    requires at < |ps| && ps[at].protocol == TCP && (s.Absent? || !ps[at].ack)
    requires next == if s.Absent? && ps[at].syn then Present(ps[at].timestamp) else s
    requires TracksHandshakes(next, ps, k, at + 1, from, places)
    ensures TracksHandshakes(s, ps, k, at, from, places)
  {
    TrackSilently(s, ps, k, at, next);
  }

  lemma IdleAtTheEnd(ps: seq<Packet>, k: Key, from: nat)
    requires from <= |ps| && forall i :: from <= i < |ps| ==> !ps[i].syn
    ensures TracksHandshakes(Absent, ps, k, |ps|, from, [])
  {
  }

  /** No SYN since `from`; packet `at` is next. */
  lemma {:induction false} IdlePlaces(ps: seq<Packet>, k: Key, from: nat, at: nat) returns (places: seq<(nat, nat)>)
    requires AllOf(ps, TCP) && from <= at <= |ps| && forall i :: from <= i < at ==> !ps[i].syn
    ensures TracksHandshakes(Absent, ps, k, at, from, places)
    decreases |ps| - at
  {
    if at == |ps| {
      IdleAtTheEnd(ps, k, from);
      places := [];
    } else if ps[at].syn {
      places := LivePlaces(ps, k, from, at, at + 1);
      Silently(Absent, ps, k, at, Present(ps[at].timestamp), from, places);
    } else {
      places := IdlePlaces(ps, k, from, at + 1);
      Silently(Absent, ps, k, at, Absent, from, places);
    }
  }

  /** The first SYN since `from` was packet `syn`, and there was no ACK since. */
  lemma {:induction false} LivePlaces(ps: seq<Packet>, k: Key, from: nat, syn: nat, at: nat)
      returns (places: seq<(nat, nat)>)
    requires AllOf(ps, TCP) && from <= syn < at <= |ps|
    requires ps[syn].syn && (forall i :: from <= i < syn ==> !ps[i].syn) && (forall i :: syn < i < at ==> !ps[i].ack)
    ensures TracksHandshakes(Present(ps[syn].timestamp), ps, k, at, from, places)
    decreases |ps| - at
  {
    if at == |ps| {
      LiveAtTheEnd(ps, k, from, syn);
      places := [];
    } else if ps[at].ack {
      var rest := IdlePlaces(ps, k, at + 1, at + 1);
      LiveAtAnAck(ps, k, from, syn, at, rest);
      places := [(syn, at)] + rest;
    } else {
      places := LivePlaces(ps, k, from, syn, at + 1);
      Silently(Present(ps[syn].timestamp), ps, k, at, Present(ps[syn].timestamp), from, places);
    }
  }

  /** A TCP flow (6) that is never evicted measures exactly its handshakes. */
  lemma TcpMeasuresHandshakes(ps: seq<Packet>, k: Key) returns (places: seq<(nat, nat)>)
    requires AllOf(ps, 6)
    ensures var (end, rs) := Track(Absent, Receives(ps, k), k);
            AreHandshakes(ps, k, 0, places, end, rs)
  {
    places := IdlePlaces(ps, k, 0, 0);
    TrackFromIsTrack(Absent, ps, k, 0);
    assert ps[0..] == ps;
  }

  /** In a whole run: a flow whose operations are the TCP packets `ps`, never evicted,
      measures exactly their handshakes, whatever the other flows do. */
  lemma TcpFlowsMeasureHandshakes(ops: seq<Op>, ps: seq<Packet>, k: Key) returns (places: seq<(nat, nat)>)
    requires Project(ops, k) == Receives(ps, k) && AllOf(ps, 6)
    ensures AreHandshakes(ps, k, 0, places, SlotOf(Exec(ops).table, k), ReportsOf(Exec(ops).reports, k))
  {
    FlowsAreIndependent(ops, k);
    places := TcpMeasuresHandshakes(ps, k);
  }

  lemma UdpPair(ps: seq<Packet>, k: Key)
    requires |ps| >= 2 && ps[0].protocol == UDP && ps[1].protocol == UDP
    ensures var (end, rs) := Track(Absent, Receives(ps[2..], k), k);
            Track(Absent, Receives(ps, k), k)
            == (end, [Report(k, ps[0].timestamp, ps[1], ps[1].ack)] + rs)
  {
    ReceivesTail(ps, k);
    ReceivesTail(ps[1..], k);
    assert ps[1..][1..] == ps[2..];
    var since := Present(ps[0].timestamp);
    assert SlotReport(Absent, Receive(k, ps[0]), k) == [];
    var rest := Track(since, Receives(ps[1..], k), k);
    assert [] + rest.1 == rest.1;
  }

  /** Packets 2i and 2i + 1 as one measurement each. */
  function Pairs(ps: seq<Packet>, k: Key): seq<Report> {
    seq(|ps| / 2, i requires 0 <= i < |ps| / 2 =>
      Report(k, ps[2 * i].timestamp, ps[2 * i + 1], ps[2 * i + 1].ack))
  }

  lemma PairsTail(ps: seq<Packet>, k: Key)
    requires |ps| >= 2
    ensures Pairs(ps, k) == [Report(k, ps[0].timestamp, ps[1], ps[1].ack)] + Pairs(ps[2..], k)
  {
  }

  /** An odd packet out. */
  function Unpaired(ps: seq<Packet>): Slot {
    if |ps| % 2 == 1 then Present(ps[|ps| - 1].timestamp) else Absent
  }

  /** A UDP flow that is never evicted pairs its packets: every second one is measured
      against the one before, and an odd one out stays live. */
  lemma {:induction false} UdpMeasuresPairs(ps: seq<Packet>, k: Key)
    requires AllOf(ps, UDP)
    ensures Track(Absent, Receives(ps, k), k) == (Unpaired(ps), Pairs(ps, k))
    decreases |ps|
  {
    if |ps| == 0 {
      assert Receives(ps, k) == [] && Pairs(ps, k) == [];
    } else if |ps| == 1 {
      ReceivesTail(ps, k);
      assert Receives(ps[1..], k) == [];
      assert Track(Absent, Receives(ps, k), k).1 == [] == Pairs(ps, k);
    } else {
      UdpPair(ps, k);
      UdpMeasuresPairs(ps[2..], k);
      PairsTail(ps, k);
    }
  }

  /** The lines of a flow of datagrams: packet 2i + 1 with the time since packet 2i. */
  ghost predicate ArePairs(ps: seq<Packet>, k: Key, rs: seq<Report>) {
    |rs| == |ps| / 2
    && forall i :: 0 <= i < |rs| ==>
         && rs[i].key == k && rs[i].packet == ps[2 * i + 1] && rs[i].acked == ps[2 * i + 1].ack
         && rs[i].Latency() == (ps[2 * i + 1].timestamp as int) - (ps[2 * i].timestamp as int)
  }

  lemma PairsArePairs(ps: seq<Packet>, k: Key)
    ensures ArePairs(ps, k, Pairs(ps, k))
  {
  }

  lemma UdpFlowsMeasurePairs(ops: seq<Op>, ps: seq<Packet>, k: Key)
    requires Project(ops, k) == Receives(ps, k) && AllOf(ps, 17)
    ensures SlotOf(Exec(ops).table, k) == Unpaired(ps) && ArePairs(ps, k, ReportsOf(Exec(ops).reports, k))
  {
    FlowsAreIndependent(ops, k);
    UdpMeasuresPairs(ps, k);
    PairsArePairs(ps, k);
  }

  // Direction does not matter.

  /** The same packet, possibly of the other direction and with another time to live. */
  predicate SameFlowPacket(p: Packet, q: Packet) {
    q.(ttl := p.ttl) == p || q.(ttl := p.ttl) == Reverse(p)
  }

  predicate SameFlowOp(a: Op, b: Op) {
    || a == b
    || (&& a.Receive? && b.Receive?
        && a == Arrival(a.packet) && b == Arrival(b.packet)
        && SameFlowPacket(a.packet, b.packet))
  }

  ghost predicate SameFlowOps(ops: seq<Op>, ops': seq<Op>) {
    |ops| == |ops'| && forall i :: 0 <= i < |ops| ==> SameFlowOp(ops[i], ops'[i])
  }

  lemma SameFlowSameKey(p: Packet, q: Packet)
    requires SameFlowPacket(p, q)
    ensures FlowKey(p) == FlowKey(q)
  {
    var r := q.(ttl := p.ttl);
    assert FlowKey(r) == FlowKey(q);
    ReverseKeepsKey(p);
  }

  /** Two lines that may differ in the order of the two ends and in the time to live, and
      in nothing else: not in the flow, the start, the end or the latency. */
  predicate SameReport(r: Report, r': Report) {
    r'.key == r.key && r'.start == r.start && r'.acked == r.acked && SameFlowPacket(r.packet, r'.packet)
  }

  ghost predicate SameReports(rs: seq<Report>, rs': seq<Report>) {
    |rs| == |rs'| && forall i :: 0 <= i < |rs| ==> SameReport(rs[i], rs'[i]) && rs[i].Latency() == rs'[i].Latency()
  }

  ghost predicate SameLedger(l: Ledger, l': Ledger) {
    l'.table == l.table && l'.stores == l.stores && l'.evicted == l.evicted && SameReports(l.reports, l'.reports)
  }

  lemma SameFlowSameEffect(l: Ledger, l': Ledger, a: Op, b: Op)
    requires SameFlowOp(a, b) && SameLedger(l, l')
    ensures SameLedger(Apply(l, a), Apply(l', b))
  {
    if a.Receive? {
      if a != b {
        SameFlowSameKey(a.packet, b.packet);
      }
      SamePacketSameEffect(l, l', a.key, a.packet, b.packet);
    }
  }

  lemma SamePacketSameEffect(l: Ledger, l': Ledger, k: Key, p: Packet, q: Packet)
    requires SameFlowPacket(p, q) && SameLedger(l, l')
    ensures SameLedger(Apply(l, Receive(k, p)), Apply(l', Receive(k, q)))
  {
  }

  /** Turning around any packets of a trace, or changing their time to live, changes
      after no step the table, and of the printed lines only the two ends' order and the
      time to live. */
  lemma {:induction false} DirectionIsIrrelevant(ops: seq<Op>, ops': seq<Op>, n: nat)
    requires SameFlowOps(ops, ops') && n <= |ops|
    ensures SameLedger(Exec(ops[..n]), Exec(ops'[..n]))
    decreases n
  {
    if n > 0 {
      DirectionIsIrrelevant(ops, ops', n - 1);
      SameFlowSameEffect(Exec(ops[..n - 1]), Exec(ops'[..n - 1]), ops[n - 1], ops'[n - 1]);
      ExecNext(ops, n);
      ExecNext(ops', n);
    }
  }

  lemma ExecNext(ops: seq<Op>, n: nat)
    requires 0 < n <= |ops|
    ensures Exec(ops[..n]) == Apply(Exec(ops[..n - 1]), ops[n - 1])
  {
    assert ops[..n][..n - 1] == ops[..n - 1];
  }
}
