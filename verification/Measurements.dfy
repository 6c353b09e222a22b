/** From the ring buffer to the printed lines: what a run reports for one flow, as a
    function of the records the kernel emitted for it. */
module Measurements {
  import opened Bytes
  import opened Packets
  import opened Matching
  import opened Runs
  import opened Pipeline
  import opened PipelineSafety

  /** The packets of flow `k`, in emission order. */
  function FlowPackets(xs: seq<Stamped>, k: Key): seq<Packet>
    decreases |xs|
  {
    if |xs| == 0 then []
    else
      var last := xs[|xs| - 1];
      FlowPackets(xs[..|xs| - 1], k) + (if last.key == k then [last.packet] else [])
  }

  lemma ReceivesAppend(ps: seq<Packet>, p: Packet, k: Key)
    ensures Receives(ps + [p], k) == Receives(ps, k) + [Receive(k, p)]
  {
  }

  lemma {:induction false} ProjectOfOps(xs: seq<Stamped>, k: Key)
    ensures Project(OpsOf(xs), k) == Receives(FlowPackets(xs, k), k)
    decreases |xs|
  {
    if |xs| > 0 {
      var front, last := xs[..|xs| - 1], xs[|xs| - 1];
      ProjectOfOps(front, k);
      assert OpsOf(xs)[..|xs| - 1] == OpsOf(front);
      ReceivesAppend(FlowPackets(front, k), last.packet, k);
      assert last.key != k ==> FlowPackets(xs, k) == FlowPackets(front, k);
    }
  }

  /** No entry of flow `k` has been evicted. Evictions that found none may have happened. */
  ghost predicate NeverLost(evicted: seq<(Key, u64)>, k: Key) {
    forall x :: x in evicted ==> x.0 != k
  }

  lemma EvictionsGrow(l: Ledger, op: Op, k: Key)
    requires NeverLost(Apply(l, op).evicted, k)
    ensures NeverLost(l.evicted, k)
    ensures op == Evict(k) ==> k !in l.table
  {
    var after := Apply(l, op).evicted;
    assert l.evicted <= after;
    if op.Evict? && op.key in l.table {
      assert after[|l.evicted|] == (op.key, l.table[op.key]);
    }
  }

  /** An eviction that finds nothing does nothing to the automaton. */
  lemma EvictionOfNothing(ops: seq<Op>, k: Key)
    requires Track(Absent, ops, k).0 == Absent
    ensures Track(Absent, ops + [Evict(k)], k) == Track(Absent, ops, k)
  {
    TrackConcat(Absent, ops, [Evict(k)], k);
    TrackOne(Absent, Evict(k), k);
    assert Track(Absent, ops, k).1 + [] == Track(Absent, ops, k).1;
  }

  lemma SameTrackAfter(ops: seq<Op>, ops': seq<Op>, op: Op, k: Key)
    requires Track(Absent, ops, k) == Track(Absent, ops', k)
    ensures Track(Absent, ops + [op], k) == Track(Absent, ops' + [op], k)
  {
    TrackConcat(Absent, ops, [op], k);
    TrackConcat(Absent, ops', [op], k);
  }

  /** If no entry of the flow was ever evicted, its automaton may forget the evictions. */
  lemma {:induction false} EvictionsForgotten(ops: seq<Op>, k: Key)
    requires NeverLost(Exec(ops).evicted, k)
    ensures Track(Absent, Project(ops, k), k) == Track(Absent, Project(ReceivesOf(ops), k), k)
    decreases |ops|
  {
    if |ops| > 0 {
      var front, op := ops[..|ops| - 1], ops[|ops| - 1];
      EvictionsGrow(Exec(front), op, k);
      EvictionsForgotten(front, k);
      ReceivesOfLast(ops, k);
      if op.key != k {
        assert Project(ops, k) == Project(front, k) && Project(ReceivesOf(ops), k) == Project(ReceivesOf(front), k);
      } else if op.Receive? {
        SameTrackAfter(Project(front, k), Project(ReceivesOf(front), k), op, k);
      } else {
        FlowsAreIndependent(front, k);
        EvictionOfNothing(Project(front, k), k);
        assert Project(ReceivesOf(ops), k) == Project(ReceivesOf(front), k);
      }
    }
  }

  lemma ProjectAppend(ops: seq<Op>, op: Op, k: Key)
    ensures Project(ops + [op], k) == Project(ops, k) + (if op.key == k then [op] else [])
  {
    assert (ops + [op])[..|ops|] == ops;
  }

  lemma ReceivesOfLast(ops: seq<Op>, k: Key)
    requires |ops| > 0
    ensures var front, op := ops[..|ops| - 1], ops[|ops| - 1];
            && Project(ops, k) == Project(front, k) + (if op.key == k then [op] else [])
            && Project(ReceivesOf(ops), k)
               == Project(ReceivesOf(front), k) + (if op.Receive? && op.key == k then [op] else [])
  {
    var front, op := ops[..|ops| - 1], ops[|ops| - 1];
    if op.Receive? {
      ProjectAppend(ReceivesOf(front), op, k);
    } else {
      assert ReceivesOf(ops) == ReceivesOf(front);
      assert Project(ReceivesOf(front), k) + [] == Project(ReceivesOf(front), k);
    }
  }

  /** A flow that has lost no entry to a sweep shows what its automaton makes of its records. */
  lemma FlowShowsItsRecords(acts: seq<Act>, k: Key)
    requires Run(acts).Some? && Run(acts).value.consumer.Selecting? && NeverLost(Run(acts).value.lost, k)
    ensures var s := Run(acts).value;
            (SlotOf(s.table, k), ReportsOf(s.reports, k))
            == Track(Absent, Receives(FlowPackets(Handed(s), k), k), k)
  {
    RunsAreLinearizable(acts);
    RecordsStayInOrder(acts);
    FlowsStayIndependent(acts, k);
    EvictionsForgotten(History(acts), k);
    ProjectOfOps(Handed(Run(acts).value), k);
    assert ReceivesOf(History(acts)) + [] == ReceivesOf(History(acts));
  }

  /** In every interleaving, whenever the consumer is at its select, a TCP flow (6) that has
      lost no entry to a sweep has printed exactly the handshakes among the records handed
      over. */
  lemma TcpRunsMeasureHandshakes(acts: seq<Act>, k: Key) returns (places: seq<(nat, nat)>)
    requires Run(acts).Some? && Run(acts).value.consumer.Selecting? && NeverLost(Run(acts).value.lost, k)
    requires AllOf(FlowPackets(Handed(Run(acts).value), k), 6)
    ensures var s := Run(acts).value;
            AreHandshakes(FlowPackets(Handed(s), k), k, 0, places, SlotOf(s.table, k), ReportsOf(s.reports, k))
  {
    FlowShowsItsRecords(acts, k);
    places := TcpMeasuresHandshakes(FlowPackets(Handed(Run(acts).value), k), k);
  }

  /** And a UDP flow (17) exactly the pairs. */
  lemma UdpRunsMeasurePairs(acts: seq<Act>, k: Key)
    requires Run(acts).Some? && Run(acts).value.consumer.Selecting? && NeverLost(Run(acts).value.lost, k)
    requires AllOf(FlowPackets(Handed(Run(acts).value), k), 17)
    ensures var s := Run(acts).value;
            var ps := FlowPackets(Handed(s), k);
            SlotOf(s.table, k) == Unpaired(ps) && ArePairs(ps, k, ReportsOf(s.reports, k))
  {
    FlowShowsItsRecords(acts, k);
    UdpMeasuresPairs(FlowPackets(Handed(Run(acts).value), k), k);
    PairsArePairs(FlowPackets(Handed(Run(acts).value), k), k);
  }
}
