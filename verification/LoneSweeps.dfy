/** A sweep that nobody disturbs does, step by step, what `FlowTable.Prune` does. */
module LoneSweeps {
  import opened Bytes
  import opened Packets
  import opened FlowTables
  import opened Matching
  import opened Pipeline
  import opened Schedules

  /** What a sweep leaves alone. */
  predicate OnlySwept(s: State, t: State) {
    && t.consumer == s.consumer && t.stores == s.stores && t.reports == s.reports
    && t.consumed == s.consumed && t.ring == s.ring && t.reader == s.reader
    && t.readings == s.readings && t.inFlight == s.inFlight && t.accepted == s.accepted
  }

  // Every way Prune can go is a run of the pipeline.

  lemma SweepOne(acts: seq<Act>, k: Key, v: u64) returns (longer: seq<Act>)
    requires Run(acts).Some? && Run(acts).value.pruner.Ranging?
    requires var w := Run(acts).value.pruner.sweep; k !in w.visited && (k, v) in w.seen && Stale(w.now, v)
    ensures Run(longer).Some?
    ensures var s, t := Run(acts).value, Run(longer).value;
            var w := s.pruner.sweep;
            && t.table == s.table - {k} && OnlySwept(s, t)
            && t.pruner == Ranging(w.(visited := w.visited + {k}, kept := w.kept - {k}))
  {
    longer := Extend(acts, Visit(k, v));
    longer := Extend(longer, Delete);
  }

  /** Visiting and deleting the stale entries `order[..i]` one step at a time. */
  lemma {:induction false} SweepSteps(acts: seq<Act>, reading: Option<Timespec>, order: seq<Key>, i: nat)
      returns (longer: seq<Act>)
    requires Run(acts).Some? && Run(acts).value.pruner.Waiting?
    requires IsIterationOrder(order, Run(acts).value.table) && i <= |order|
    requires forall j :: 0 <= j < i ==> Stale(NanosSinceBoot(reading), Run(acts).value.table[order[j]])
    ensures Run(longer).Some?
    ensures var s, t := Run(acts).value, Run(longer).value;
            && t.table == Without(s.table, order[..i]) && OnlySwept(s, t)
            && t.pruner.Ranging? && t.pruner.sweep.now == NanosSinceBoot(reading)
            && t.pruner.sweep.visited == KeySet(order[..i]) && t.pruner.sweep.kept == t.table.Keys
            && t.pruner.sweep.seen == Live(s.table)
    decreases i
  {
    var s := Run(acts).value;
    if i == 0 {
      longer := Extend(acts, Tick(reading));
    } else {
      longer := SweepSteps(acts, reading, order, i - 1);
      var k := order[i - 1];
      LiveMembers(s.table, (k, s.table[k]));
      assert k !in order[..i - 1];
      PrefixGrows(s.table, order, i);
      longer := SweepOne(longer, k, s.table[k]);
    }
  }

  lemma PruneIsALoneSweep(acts: seq<Act>, reading: Option<Timespec>, order: seq<Key>, n: nat)
      returns (longer: seq<Act>)
    requires Run(acts).Some? && Run(acts).value.pruner.Waiting?
    requires IsIterationOrder(order, Run(acts).value.table)
    requires IsStaleRun(NanosSinceBoot(reading), Run(acts).value.table, order, n)
    ensures Run(longer).Some?
    ensures var s, t := Run(acts).value, Run(longer).value;
            t.pruner.Waiting? && OnlySwept(s, t)
            && Swept(NanosSinceBoot(reading), s.table, order, n, t.table)
  {
    var s := Run(acts).value;
    longer := SweepSteps(acts, reading, order, n);
    if n < |order| {
      var k := order[n];
      LiveMembers(s.table, (k, s.table[k]));
      assert k !in order[..n];
      longer := Extend(longer, Visit(k, s.table[k]));
    } else {
      longer := Extend(longer, RangeEnd);
    }
  }

  // Every lone sweep is one of those.

  /** Steps of the pruner between one tick and the next. */
  ghost predicate AreSweepSteps(acts: seq<Act>) {
    forall i :: 0 <= i < |acts| ==> acts[i].Visit? || acts[i].RangeEnd? || acts[i].Delete?
  }

  /** The keys visited, in order. */
  function VisitsOf(acts: seq<Act>): seq<Key>
    decreases |acts|
  {
    if |acts| == 0 then []
    else VisitsOf(acts[..|acts| - 1]) + (if acts[|acts| - 1].Visit? then [acts[|acts| - 1].key] else [])
  }

  predicate AreDistinctKeys(keys: seq<Key>, t: Table) {
    && (forall i :: 0 <= i < |keys| ==> keys[i] in t)
    && (forall i, j :: 0 <= i < j < |keys| ==> keys[i] != keys[j])
  }

  /** All of `keys[..n]` are stale and gone, and nothing else is. */
  ghost predicate SweptSoFar(now: u64, before: Table, keys: seq<Key>, n: nat, after: Table) {
    && AreDistinctKeys(keys, before) && n <= |keys|
    && (forall i :: 0 <= i < n ==> Stale(now, before[keys[i]]))
    && after == Without(before, keys[..n])
  }

  /** Where a lone sweep of table `before` stands after visiting `keys`; `last` is its last step. */
  ghost predicate Stands(now: u64, before: Table, keys: seq<Key>, p: Pruner, after: Table, last: Act) {
    match p
    case Ranging(w) =>
      && SweptSoFar(now, before, keys, |keys|, after)
      && w.now == now && w.visited == KeySet(keys) && w.kept == after.Keys && w.seen == Live(before)
    case Evicting(w, e) =>
      && |keys| > 0 && e == keys[|keys| - 1] && e in before && Stale(now, before[e])
      && SweptSoFar(now, before, keys, |keys| - 1, after)
      && w.now == now && w.visited == KeySet(keys) && w.kept == after.Keys && w.seen == Live(before)
    case Waiting =>
      if last.Visit? then
        |keys| > 0 && keys[|keys| - 1] in before && !Stale(now, before[keys[|keys| - 1]])
        && SweptSoFar(now, before, keys, |keys| - 1, after)
      else
        before.Keys == KeySet(keys) && SweptSoFar(now, before, keys, |keys|, after)
  }

  lemma VisitStands(now: u64, before: Table, keys: seq<Key>, s: State, k: Key, v: u64, last: Act)
    requires s.pruner.Ranging? && Stands(now, before, keys, s.pruner, s.table, last)
    requires DoPrune(s, Visit(k, v)).Some?
    ensures var t := DoPrune(s, Visit(k, v)).value;
            Stands(now, before, keys + [k], t.pruner, t.table, Visit(k, v)) && OnlySwept(s, t)
  {
    LiveMembers(before, (k, v));
    assert (keys + [k])[..|keys|] == keys == keys[..|keys|];
    assert k !in keys;
    KeySetGrows(keys, k);
  }

  lemma KeySetGrows(keys: seq<Key>, k: Key)
    ensures KeySet(keys + [k]) == KeySet(keys) + {k}
  {
  }

  lemma DeleteStands(now: u64, before: Table, keys: seq<Key>, s: State, last: Act)
    requires s.pruner.Evicting? && Stands(now, before, keys, s.pruner, s.table, last)
    ensures var t := DoPrune(s, Delete).value;
            Stands(now, before, keys, t.pruner, t.table, Delete) && OnlySwept(s, t)
  {
    PrefixGrows(before, keys, |keys|);
  }

  lemma RangeEndStands(now: u64, before: Table, keys: seq<Key>, s: State, last: Act)
    requires s.pruner.Ranging? && Stands(now, before, keys, s.pruner, s.table, last)
    requires DoPrune(s, RangeEnd).Some?
    ensures var t := DoPrune(s, RangeEnd).value;
            Stands(now, before, keys, t.pruner, t.table, RangeEnd) && OnlySwept(s, t)
  {
    assert keys[..|keys|] == keys;
  }

  lemma TickStands(s: State, reading: Option<Timespec>)
    requires s.pruner.Waiting?
    ensures var t := DoPrune(s, Tick(reading)).value;
            Stands(NanosSinceBoot(reading), s.table, [], t.pruner, t.table, Tick(reading)) && OnlySwept(s, t)
  {
  }

  function LastOf(a: Act, acts: seq<Act>): Act {
    if |acts| == 0 then a else acts[|acts| - 1]
  }

  lemma {:induction false} LoneSweepStands(acts: seq<Act>, reading: Option<Timespec>, sweep: seq<Act>)
    requires AreSweepSteps(sweep) && Run(acts).Some? && Run(acts + [Tick(reading)] + sweep).Some?
    ensures var s, t := Run(acts).value, Run(acts + [Tick(reading)] + sweep).value;
            var last := LastOf(Tick(reading), sweep);
            OnlySwept(s, t) && Stands(NanosSinceBoot(reading), s.table, VisitsOf(sweep), t.pruner, t.table, last)
    decreases |sweep|
  {
    var all := acts + [Tick(reading)] + sweep;
    RunFront(all);
    if |sweep| == 0 {
      assert all[..|all| - 1] == acts;
      TickStands(Run(acts).value, reading);
    } else {
      var front, a := sweep[..|sweep| - 1], sweep[|sweep| - 1];
      assert all[..|all| - 1] == acts + [Tick(reading)] + front;
      LoneSweepStands(acts, reading, front);
      SweepStepStands(NanosSinceBoot(reading), Run(acts).value.table, VisitsOf(front),
                      Run(all[..|all| - 1]).value, a, LastOf(Tick(reading), front));
    }
  }

  lemma SweepStepStands(now: u64, before: Table, keys: seq<Key>, s: State, a: Act, last: Act)
    requires a.Visit? || a.RangeEnd? || a.Delete?
    requires Stands(now, before, keys, s.pruner, s.table, last) && DoPrune(s, a).Some?
    ensures var t := DoPrune(s, a).value;
            Stands(now, before, keys + (if a.Visit? then [a.key] else []), t.pruner, t.table, a) && OnlySwept(s, t)
  {
    assert keys + [] == keys;
    if a.Visit? {
      VisitStands(now, before, keys, s, a.key, a.value, last);
    } else if a.RangeEnd? {
      RangeEndStands(now, before, keys, s, last);
    } else {
      DeleteStands(now, before, keys, s, last);
    }
  }

  /** Distinct keys of a table are the beginning of some iteration over it. */
  lemma {:induction false} CompleteOrder(keys: seq<Key>, t: Table) returns (order: seq<Key>)
    requires AreDistinctKeys(keys, t)
    ensures keys <= order && IsIterationOrder(order, t)
    decreases t.Keys - KeySet(keys)
  {
    if exists k :: k in t && k !in keys {
      var k :| k in t && k !in keys;
      KeySetGrows(keys, k);
      assert k in t.Keys - KeySet(keys);
      order := CompleteOrder(keys + [k], t);
    } else {
      order := keys;
    }
  }

  /** The sweep stopped at the last key it visited, which is not stale. */
  predicate StoppedAtAnEntry(p: Pruner, last: Act) {
    p.Waiting? && last.Visit?
  }

  /** How many of the visited keys have been deleted. */
  function DeletedCount(keys: seq<Key>, p: Pruner, last: Act): nat {
    if |keys| > 0 && (p.Evicting? || StoppedAtAnEntry(p, last)) then |keys| - 1 else |keys|
  }

  lemma StandsSweptSoFar(now: u64, before: Table, keys: seq<Key>, p: Pruner, after: Table, last: Act)
    requires Stands(now, before, keys, p, after, last)
    ensures SweptSoFar(now, before, keys, DeletedCount(keys, p, last), after)
    ensures var n := DeletedCount(keys, p, last);
            p.Waiting? ==> if n < |keys| then !Stale(now, before[keys[n]]) else before.Keys == KeySet(keys)
  {
  }

  lemma SweptInOrder(now: u64, before: Table, keys: seq<Key>, order: seq<Key>, n: nat, after: Table)
    requires SweptSoFar(now, before, keys, n, after)
    requires keys <= order && IsIterationOrder(order, before)
    ensures SweptSoFar(now, before, order, n, after)
    ensures (if n < |keys| then !Stale(now, before[keys[n]]) else before.Keys == KeySet(keys))
            ==> Swept(now, before, order, n, after)
  {
    assert order[..n] == keys[..n];
    if |keys| < |order| {
      assert order[|keys|] in before && order[|keys|] !in keys;
    }
  }

  /** Whatever steps a sweep with the table to itself takes, it deletes a prefix of stale
      entries of some iteration order, and the longest one once it has ended. */
  lemma EveryLoneSweepIsAPrune(acts: seq<Act>, reading: Option<Timespec>, sweep: seq<Act>)
      returns (order: seq<Key>, n: nat)
    requires AreSweepSteps(sweep) && Run(acts).Some? && Run(acts + [Tick(reading)] + sweep).Some?
    ensures IsIterationOrder(order, Run(acts).value.table)
    ensures var s, t, now := Run(acts).value, Run(acts + [Tick(reading)] + sweep).value, NanosSinceBoot(reading);
            && OnlySwept(s, t) && SweptSoFar(now, s.table, order, n, t.table)
            && (t.pruner.Waiting? ==> Swept(now, s.table, order, n, t.table))
  {
    LoneSweepStands(acts, reading, sweep);
    var s, t, now := Run(acts).value, Run(acts + [Tick(reading)] + sweep).value, NanosSinceBoot(reading);
    var keys, last := VisitsOf(sweep), LastOf(Tick(reading), sweep);
    StandsSweptSoFar(now, s.table, keys, t.pruner, t.table, last);
    n := DeletedCount(keys, t.pruner, last);
    order := CompleteOrder(keys, s.table);
    SweptInOrder(now, s.table, keys, order, n, t.table);
  }
}
