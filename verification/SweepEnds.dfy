/** What a sweep has cleared by the time it ends, while the consumer keeps working on the
    same table. */
module SweepEnds {
  import opened FlowTables
  import opened Matching
  import opened Pipeline
  import opened SweepRaces

  /** Every entry was there all the time or was stored since the sweep began, and the keys
      that were there all the time are yet to be visited, but for the one being deleted. */
  ghost predicate Progress(s: State) {
    s.pruner.Waiting?
    || var w := s.pruner.sweep;
       && w.mark <= |s.stores| && w.kept <= s.table.Keys
       && (forall k :: k in s.table ==> k in w.kept || StoredSince(s, w, k).Some?)
       && (forall k :: k in w.kept && k in w.visited ==> s.pruner.Evicting? && k == s.pruner.key)
  }

  lemma StoreKeepsProgress(s: State)
    requires Progress(s) && s.consumer.Storing? && !s.pruner.Waiting?
    ensures Progress(DoConsume(s).value)
  {
    var x := (s.consumer.key, s.consumer.packet.timestamp);
    var after := DoConsume(s).value;
    var w, w' := s.pruner.sweep, after.pruner.sweep;
    assert StoresSince(after, w') == StoresSince(s, w) + [x];
    forall k | k in after.table
      ensures k in w'.kept || StoredSince(after, w', k).Some?
    {
      LatestStoreAppend(StoresSince(s, w), x, k);
    }
  }

  lemma PrunerKeepsProgress(s: State, a: Act)
    requires a.Tick? || a.Visit? || a.RangeEnd? || a.Delete?
    requires Progress(s) && DoPrune(s, a).Some?
    ensures Progress(DoPrune(s, a).value)
  {
    var t := DoPrune(s, a).value;
    assert t.stores == s.stores;
    if a.Visit? || a.Delete? {
      assert forall k :: k in t.table && !t.pruner.Waiting? ==>
                           StoredSince(t, t.pruner.sweep, k) == StoredSince(s, s.pruner.sweep, k);
    }
  }

  /** The consumer deletes, or neither it nor the pruner touches the table. */
  lemma OtherStepsKeepProgress(s: State, a: Act)
    requires Progress(s) && Do(s, a).Some? && !s.pruner.Waiting?
    requires !(a.Consume? && s.consumer.Storing?) && !a.Tick? && !a.Visit? && !a.RangeEnd? && !a.Delete?
    ensures Progress(Do(s, a).value)
  {
    var t := Do(s, a).value;
    assert t.stores == s.stores;
    assert forall k :: k in t.table ==> StoredSince(t, t.pruner.sweep, k) == StoredSince(s, s.pruner.sweep, k);
  }

  lemma {:induction false} SweepsProgress(acts: seq<Act>)
    requires Run(acts).Some?
    ensures Progress(Run(acts).value)
    decreases |acts|
  {
    if |acts| > 0 {
      RunFront(acts);
      var front, a := acts[..|acts| - 1], acts[|acts| - 1];
      var s := Run(front).value;
      SweepsProgress(front);
      if a.Tick? || a.Visit? || a.RangeEnd? || a.Delete? {
        PrunerKeepsProgress(s, a);
      } else if s.pruner.Waiting? {
        StaysWaiting(s, a);
      } else if a.Consume? && s.consumer.Storing? {
        StoreKeepsProgress(s);
      } else {
        OtherStepsKeepProgress(s, a);
      }
    }
  }

  /** The two ways in which step `a` can end the sweep of state `s`: at a mapping that is not
      stale, or with every entry that is left stored since the sweep began. */
  ghost predicate Ends(s: State, a: Act, left: Table)
    requires !s.pruner.Waiting?
  {
    var w := s.pruner.sweep;
    || (a.Visit? && !Stale(w.now, a.value) && (a.key, a.value) in w.seen)
    || (a.RangeEnd? && left == s.table && forall k :: k in left ==> StoredSince(s, w, k).Some?)
  }

  lemma EndingStep(s: State, a: Act)
    requires Progress(s) && !s.pruner.Waiting? && Do(s, a).Some? && Do(s, a).value.pruner.Waiting?
    ensures Ends(s, a, Do(s, a).value.table)
  {
  }

  /** Whatever the consumer does meanwhile, a sweep ends at a mapping that is not stale, or
      having left no entry there was when it began and that nobody stored anew. */
  lemma HowSweepsEnd(acts: seq<Act>)
    requires Run(acts).Some? && |acts| > 0
    requires !Run(acts[..|acts| - 1]).value.pruner.Waiting? && Run(acts).value.pruner.Waiting?
    ensures Ends(Run(acts[..|acts| - 1]).value, acts[|acts| - 1], Run(acts).value.table)
  {
    RunFront(acts);
    SweepsProgress(acts[..|acts| - 1]);
    EndingStep(Run(acts[..|acts| - 1]).value, acts[|acts| - 1]);
  }
}
