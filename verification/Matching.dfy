/** The latency matcher: what one packet does to the flow table, and what a whole run of
    packets and evictions does. */
module Matching {
  import opened Bytes
  import opened Protocols
  import opened Packets
  import opened FlowTables

  /** One printed line: the flow, the start of the measurement, the packet that ends it, of
      which both ends and the time to live are printed, and which of the two branches. */
  datatype Report = Report(key: Key, start: u64, packet: Packet, acked: bool) {
    function End(): u64 {
      packet.timestamp
    }

    function Latency(): int {
      End() - start
    }
  }

  predicate Tracked(protocol: byte) {
    protocol == TCP || protocol == UDP
  }

  /** A packet that starts a measurement when its flow has none. */
  predicate Opens(p: Packet) {
    p.syn || p.protocol == UDP
  }

  /** A packet that ends the measurement its flow has. */
  predicate Closes(p: Packet) {
    p.ack || p.protocol == UDP
  }

  /** One packet of flow `k` against the table. The flow key is a parameter: nothing about
      runs depends on how keys are computed. */
  function Process(t: Table, k: Key, p: Packet): (Table, seq<Report>) {
    if !Tracked(p.protocol) then (t, [])
    else if k !in t then (if Opens(p) then t[k := p.timestamp] else t, [])
    else if Closes(p) then (t - {k}, [Report(k, t[k], p, p.ack)])
    else (t, [])
  }

  /** `CalcLatency` with the table to itself, branch by branch. */
  method CalcLatency(p: Packet, table: FlowTable) returns (printed: seq<Report>)
    modifies table
    ensures (table.entries, printed) == Process(old(table.entries), FlowKey(p), p)
    ensures var k, before := FlowKey(p), old(table.entries);
            if p.protocol != 6 && p.protocol != 17 then table.entries == before && printed == []
            else if k !in before then
              printed == [] && table.entries == if p.syn || p.protocol == 17 then before[k := p.timestamp] else before
            else if p.ack || p.protocol == 17 then
              && table.entries == before - {k} && |printed| == 1
              && printed[0].key == k && printed[0].packet == p && printed[0].acked == p.ack
              && printed[0].Latency() == (p.timestamp as int) - (before[k] as int)
            else table.entries == before && printed == []
  {
    printed := [];
    if p.protocol != TCP && p.protocol != UDP {
      return;
    }

    var hash := HashPacket(p);
    var ts, ok := table.Get(hash);

    if !ok && p.syn {
      table.Insert(hash, p.timestamp);
      return;
    } else if !ok && p.protocol == UDP {
      table.Insert(hash, p.timestamp);
      return;
    } else if !ok {
      return;
    }

    if p.ack {
      printed := [Report(hash, ts, p, true)];
      var _ := table.Remove(hash);
    } else if p.protocol == UDP {
      printed := [Report(hash, ts, p, false)];
      var _ := table.Remove(hash);
    }
  }

  // Runs: packets handled one after the other, with evictions anywhere in between.

  datatype Op = Receive(key: Key, packet: Packet) | Evict(key: Key)

  /** What `CalcLatency` makes of a packet. */
  function Arrival(p: Packet): Op {
    Receive(FlowKey(p), p)
  }

  /** The table together with everything that ever happened to its entries. */
  datatype Ledger = Ledger(table: Table, stores: seq<(Key, u64)>, reports: seq<Report>, evicted: seq<(Key, u64)>)

  const EMPTY := Ledger(map[], [], [], [])

  function Apply(l: Ledger, op: Op): Ledger {
    match op
    case Receive(k, p) =>
      var (table, reports) := Process(l.table, k, p);
      var stores := if k in table && k !in l.table then [(k, p.timestamp)] else [];
      Ledger(table, l.stores + stores, l.reports + reports, l.evicted)
    case Evict(k) =>
      if k in l.table then l.(table := l.table - {k}, evicted := l.evicted + [(k, l.table[k])]) else l
  }

  function Exec(ops: seq<Op>): Ledger
    decreases |ops|
  {
    if |ops| == 0 then EMPTY else Apply(Exec(ops[..|ops| - 1]), ops[|ops| - 1])
  }

  lemma ExecAppend(ops: seq<Op>, op: Op)
    ensures Exec(ops + [op]) == Apply(Exec(ops), op)
  {
  }

  // Conservation.

  function Starts(reports: seq<Report>): seq<(Key, u64)> {
    seq(|reports|, i requires 0 <= i < |reports| => (reports[i].key, reports[i].start))
  }

  /** The entries of the table as pairs. */
  function Live(t: Table): set<(Key, u64)> {
    set k | k in t :: (k, t[k])
  }

  lemma LiveMembers(t: Table, x: (Key, u64))
    ensures x in Live(t) <==> x.0 in t && t[x.0] == x.1
  {
  }

  lemma LiveAfterStore(t: Table, k: Key, v: u64)
    requires k !in t
    ensures multiset(Live(t[k := v])) == multiset(Live(t)) + multiset{(k, v)}
  {
    forall x
      ensures x in Live(t[k := v]) <==> x in Live(t) + {(k, v)}
    {
      LiveMembers(t, x);
      LiveMembers(t[k := v], x);
    }
    assert Live(t[k := v]) == Live(t) + {(k, v)};
    assert (k, v) !in Live(t);
  }

  lemma LiveAfterRemoval(t: Table, k: Key)
    requires k in t
    ensures multiset(Live(t)) == multiset(Live(t - {k})) + multiset{(k, t[k])}
  {
    var rest := t - {k};
    assert t == rest[k := t[k]];
    LiveAfterStore(rest, k, t[k]);
  }

  ghost predicate Balanced(l: Ledger) {
    multiset(l.stores) == multiset(Starts(l.reports)) + multiset(Live(l.table)) + multiset(l.evicted)
  }

  /** Every stored timestamp is, with its multiplicity, exactly one of: reported once,
      still in the table, evicted. In particular no store is reported twice. */
  lemma {:induction false} StoresAreConserved(ops: seq<Op>)
    ensures Balanced(Exec(ops))
    decreases |ops|
  {
    if |ops| > 0 {
      StoresAreConserved(ops[..|ops| - 1]);
      ApplyKeepsBalance(Exec(ops[..|ops| - 1]), ops[|ops| - 1]);
    }
  }

  lemma StoreKeepsBalance(l: Ledger, k: Key, v: u64)
    requires Balanced(l) && k !in l.table
    ensures Balanced(l.(table := l.table[k := v], stores := l.stores + [(k, v)]))
  {
    LiveAfterStore(l.table, k, v);
  }

  lemma ReportKeepsBalance(l: Ledger, r: Report)
    requires Balanced(l) && r.key in l.table && r.start == l.table[r.key]
    ensures Balanced(l.(table := l.table - {r.key}, reports := l.reports + [r]))
  {
    LiveAfterRemoval(l.table, r.key);
    assert Starts(l.reports + [r]) == Starts(l.reports) + [(r.key, r.start)];
  }

  lemma EvictionKeepsBalance(l: Ledger, k: Key)
    requires Balanced(l) && k in l.table
    ensures Balanced(l.(table := l.table - {k}, evicted := l.evicted + [(k, l.table[k])]))
  {
    LiveAfterRemoval(l.table, k);
  }

  lemma ApplyKeepsBalance(l: Ledger, op: Op)
    requires Balanced(l)
    ensures Balanced(Apply(l, op))
  {
    var k, after := op.key, Apply(l, op);
    if op.Evict? {
      if k in l.table {
        EvictionKeepsBalance(l, k);
      }
    } else if Tracked(op.packet.protocol) && k !in l.table && Opens(op.packet) {
      StoreKeepsBalance(l, k, op.packet.timestamp);
      assert after == l.(table := l.table[k := op.packet.timestamp], stores := l.stores + [(k, op.packet.timestamp)]);
    } else if Tracked(op.packet.protocol) && k in l.table && Closes(op.packet) {
      var r := Report(k, l.table[k], op.packet, op.packet.ack);
      ReportKeepsBalance(l, r);
      assert after == l.(table := l.table - {k}, reports := l.reports + [r]);
    } else {
      assert after == l;
    }
  }

  /** The most recent store for `k`. */
  function LatestStore(stores: seq<(Key, u64)>, k: Key): Option<u64>
    decreases |stores|
  {
    if |stores| == 0 then None
    else if stores[|stores| - 1].0 == k then Some(stores[|stores| - 1].1)
    else LatestStore(stores[..|stores| - 1], k)
  }

  lemma LatestStoreAppend(stores: seq<(Key, u64)>, s: (Key, u64), k: Key)
    ensures LatestStore(stores + [s], k) == if s.0 == k then Some(s.1) else LatestStore(stores, k)
  {
  }

  lemma {:induction false} TableHoldsLatestStores(ops: seq<Op>, k: Key)
    requires k in Exec(ops).table
    ensures LatestStore(Exec(ops).stores, k) == Some(Exec(ops).table[k])
    decreases |ops|
  {
    if |ops| > 0 {
      var before, op := Exec(ops[..|ops| - 1]), ops[|ops| - 1];
      if k in before.table {
        TableHoldsLatestStores(ops[..|ops| - 1], k);
      }
      if op.Receive? {
        LatestStoreAppend(before.stores, (op.key, op.packet.timestamp), k);
        assert before.stores + [] == before.stores;
      }
    }
  }

  /** A report measures from the most recent store of its flow. */
  lemma ReportsMeasureFromLatestStore(ops: seq<Op>, k: Key, p: Packet)
    ensures var before, after := Exec(ops), Exec(ops + [Receive(k, p)]);
            after.reports == before.reports
            || exists start ::
                 && LatestStore(before.stores, k) == Some(start)
                 && after.reports == before.reports + [Report(k, start, p, p.ack)]
  {
    ExecAppend(ops, Receive(k, p));
    var before := Exec(ops);
    assert before.reports + [] == before.reports;
    if k in before.table {
      TableHoldsLatestStores(ops, k);
      assert LatestStore(before.stores, k) == Some(before.table[k]);
    }
  }

  // Each flow by itself.

  /** What a flow's part of the table can be, and how its own packets move it. */
  datatype Slot = Absent | Present(since: u64)

  function NextSlot(s: Slot, op: Op): Slot {
    match op
    case Evict(_) => Absent
    case Receive(_, p) =>
      if !Tracked(p.protocol) then s
      else match s
           case Absent => if Opens(p) then Present(p.timestamp) else Absent
           case Present(_) => if Closes(p) then Absent else s
  }

  function SlotReport(s: Slot, op: Op, k: Key): seq<Report> {
    if op.Receive? && Tracked(op.packet.protocol) && s.Present? && Closes(op.packet)
    then [Report(k, s.since, op.packet, op.packet.ack)]
    else []
  }

  /** The two-state automaton of flow `k`, run over operations that are all its own. */
  function Track(s: Slot, ops: seq<Op>, k: Key): (Slot, seq<Report>)
    decreases |ops|
  {
    if |ops| == 0 then (s, [])
    else
      var (end, reports) := Track(NextSlot(s, ops[0]), ops[1..], k);
      (end, SlotReport(s, ops[0], k) + reports)
  }

  function Project(ops: seq<Op>, k: Key): seq<Op>
    decreases |ops|
  {
    if |ops| == 0 then []
    else Project(ops[..|ops| - 1], k) + (if ops[|ops| - 1].key == k then [ops[|ops| - 1]] else [])
  }

  function ReportsOf(reports: seq<Report>, k: Key): seq<Report>
    decreases |reports|
  {
    if |reports| == 0 then []
    else ReportsOf(reports[..|reports| - 1], k)
         + (if reports[|reports| - 1].key == k then [reports[|reports| - 1]] else [])
  }

  function SlotOf(t: Table, k: Key): Slot {
    if k in t then Present(t[k]) else Absent
  }

  lemma {:induction false} TrackConcat(s: Slot, a: seq<Op>, b: seq<Op>, k: Key)
    ensures var (mid, first) := Track(s, a, k);
            var (end, second) := Track(mid, b, k);
            Track(s, a + b, k) == (end, first + second)
    decreases |a|
  {
    if |a| == 0 {
      assert a + b == b;
      assert Track(s, a, k).1 + Track(s, b, k).1 == Track(s, b, k).1;
    } else {
      assert (a + b)[1..] == a[1..] + b;
      TrackConcat(NextSlot(s, a[0]), a[1..], b, k);
      var (mid, first) := Track(NextSlot(s, a[0]), a[1..], k);
      var (end, second) := Track(mid, b, k);
      var r := SlotReport(s, a[0], k);
      assert r + (first + second) == (r + first) + second;
    }
  }

  lemma TrackOne(s: Slot, op: Op, k: Key)
    ensures Track(s, [op], k) == (NextSlot(s, op), SlotReport(s, op, k))
  {
    assert [op][1..] == [];
    assert SlotReport(s, op, k) + [] == SlotReport(s, op, k);
  }

  lemma ReportsOfAppend(reports: seq<Report>, more: seq<Report>, k: Key)
    requires |more| <= 1
    ensures ReportsOf(reports + more, k)
            == ReportsOf(reports, k) + (if |more| == 1 && more[0].key == k then more else [])
  {
    if |more| == 1 {
      assert (reports + more)[..|reports|] == reports;
      assert more == [more[0]];
    } else {
      assert reports + more == reports;
      assert ReportsOf(reports, k) + [] == ReportsOf(reports, k);
    }
  }

  lemma ApplySeenByFlow(l: Ledger, op: Op, k: Key)
    ensures SlotOf(Apply(l, op).table, k)
            == if op.key == k then NextSlot(SlotOf(l.table, k), op) else SlotOf(l.table, k)
    ensures ReportsOf(Apply(l, op).reports, k)
            == ReportsOf(l.reports, k) + (if op.key == k then SlotReport(SlotOf(l.table, k), op, k) else [])
  {
    if op.Receive? {
      ReportsOfAppend(l.reports, Process(l.table, op.key, op.packet).1, k);
    } else {
      assert ReportsOf(l.reports, k) + [] == ReportsOf(l.reports, k);
    }
  }

  /** Flows do not interfere: the entry and the reports of flow `k` are those of its own
      automaton run on its own operations only. */
  lemma {:induction false} FlowsAreIndependent(ops: seq<Op>, k: Key)
    ensures (SlotOf(Exec(ops).table, k), ReportsOf(Exec(ops).reports, k)) == Track(Absent, Project(ops, k), k)
    decreases |ops|
  {
    if |ops| > 0 {
      var front, op := ops[..|ops| - 1], ops[|ops| - 1];
      FlowsAreIndependent(front, k);
      ApplySeenByFlow(Exec(front), op, k);
      if op.key == k {
        TrackConcat(Absent, Project(front, k), [op], k);
        TrackOne(SlotOf(Exec(front).table, k), op, k);
      } else {
        assert Project(ops, k) == Project(front, k);
        assert ReportsOf(Exec(front).reports, k) + [] == ReportsOf(Exec(front).reports, k);
      }
    }
  }
}
