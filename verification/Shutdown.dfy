/** Steps that end something for good: the consumer after its context is done, the reader
    after a read error, a record once it has been output or refused, an entry once it has been
    reported. */
module Shutdown {
  import opened Packets
  import opened Pipeline
  import opened Schedules
  import opened StampOrder

  /** The consumer of `t` has returned and has done nothing since `s`. */
  predicate Returned(s: State, t: State) {
    t.consumer.Cancelled? && t.consumed == s.consumed && t.stores == s.stores && t.reports == s.reports
  }

  lemma ReturnedStep(s: State, a: Act)
    requires Do(s, a).Some? && (s.consumer.Cancelled? || a.Cancel?)
    ensures Returned(s, Do(s, a).value)
  {
  }

  lemma ReturnedNext(acts: seq<Act>, n: nat)
    requires Run(acts).Some? && n < |acts| && (At(acts, n).consumer.Cancelled? || acts[n].Cancel?)
    ensures Returned(At(acts, n), At(acts, n + 1))
  {
    AtNext(acts, n);
    ReturnedStep(At(acts, n), acts[n]);
  }

  /** After the context is done the consumer takes nothing, stores nothing and prints nothing. */
  lemma {:induction false} NothingAfterCancel(acts: seq<Act>, m: nat, n: nat)
    requires Run(acts).Some? && m < n <= |acts| && acts[m].Cancel?
    ensures Returned(At(acts, m), At(acts, n))
    decreases n
  {
    if m < n - 1 {
      NothingAfterCancel(acts, m, n - 1);
    }
    ReturnedNext(acts, n - 1);
  }

  /** The reader of `t` has returned and has taken and handed over nothing since `s`. */
  predicate Stopped(s: State, t: State) {
    t.reader.ReaderStopped? && t.consumed == s.consumed && s.ring <= t.ring
  }

  lemma StoppedStep(s: State, a: Act)
    requires Do(s, a).Some? && (s.reader.ReaderStopped? || a.ReadError?)
    ensures Stopped(s, Do(s, a).value)
  {
  }

  lemma StoppedNext(acts: seq<Act>, n: nat)
    requires Run(acts).Some? && n < |acts| && (At(acts, n).reader.ReaderStopped? || acts[n].ReadError?)
    ensures Stopped(At(acts, n), At(acts, n + 1))
  {
    AtNext(acts, n);
    StoppedStep(At(acts, n), acts[n]);
  }

  /** After a read error nothing leaves the ring buffer and nothing is handed over. */
  lemma {:induction false} NothingAfterReadError(acts: seq<Act>, m: nat, n: nat)
    requires Run(acts).Some? && m < n <= |acts| && acts[m].ReadError?
    ensures Stopped(At(acts, m), At(acts, n))
    decreases n
  {
    if m < n - 1 {
      NothingAfterReadError(acts, m, n - 1);
    }
    StoppedNext(acts, n - 1);
  }

  // A record that has been output.

  lemma OutputStepEnds(s: State, x: Stamped, refused: bool)
    requires Do(s, Output(x, refused)).Some?
    ensures var t := Do(s, Output(x, refused)).value;
            x in s.inFlight && x !in t.inFlight && t.readings == s.readings
  {
  }

  /** Each record is output once at most, and if it is refused, never accepted. */
  lemma EachRecordIsOutputOnce(acts: seq<Act>, m: nat, n: nat)
    requires Run(acts).Some? && m < |acts| && n < |acts| && acts[m].Output? && acts[n].Output?
    ensures acts[m].stamped == acts[n].stamped ==> m == n
  {
    if acts[m].stamped == acts[n].stamped && m != n {
      OutputEnds(acts, if m < n then m else n, if m < n then n else m);
    }
  }

  lemma OutputEnds(acts: seq<Act>, m: nat, n: nat)
    requires Run(acts).Some? && m < n < |acts| && acts[m].Output? && acts[n].Output?
    ensures acts[m].stamped != acts[n].stamped
  {
    AtNext(acts, m);
    AtNext(acts, n);
    OutputStepEnds(At(acts, m), acts[m].stamped, acts[m].refused);
    OutputStepEnds(At(acts, n), acts[n].stamped, acts[n].refused);
    InFlightIsNumbered(acts, m, acts[m].stamped);
    if acts[m].stamped == acts[n].stamped {
      FlightOnlyEnds(acts, m + 1, n, acts[n].stamped);
    }
  }

  lemma RefusedIsNeverAccepted(acts: seq<Act>, m: nat)
    requires Run(acts).Some? && m < |acts| && acts[m].Output? && acts[m].refused
    ensures acts[m].stamped !in Run(acts).value.accepted
  {
    var accepted := Run(acts).value.accepted;
    if acts[m].stamped in accepted {
      var i :| 0 <= i < |accepted| && accepted[i] == acts[m].stamped;
      AtEnd(acts);
      var n := EmittedAt(acts, |acts|, i);
      EachRecordIsOutputOnce(acts, m, n);
    }
  }

  // Removing a reported entry: Load, then Delete of what Load has found.

  /** The consumer is about to print or remove the entry of `k`. */
  predicate Removes(c: Consumer, k: Key) {
    (c.Reporting? || c.Checking?) && c.key == k
  }

  /** A sweep deletes the entry of `k` while the consumer is about to print or remove it. */
  ghost predicate SweptUnderway(acts: seq<Act>, k: Key, m: nat)
    requires Run(acts).Some?
  {
    && m < |acts| && acts[m].Delete?
    && At(acts, m).pruner.Evicting? && At(acts, m).pruner.key == k && Removes(At(acts, m).consumer, k)
  }

  lemma RemovesStep(s: State, a: Act, k: Key)
    requires Do(s, a).Some? && Removes(Do(s, a).value.consumer, k) && k !in Do(s, a).value.table
    ensures Removes(s.consumer, k) && (k in s.table ==> a.Delete? && s.pruner.Evicting? && s.pruner.key == k)
  {
  }

  lemma RemovesNext(acts: seq<Act>, n: nat, k: Key)
    requires Run(acts).Some? && n < |acts| && Removes(At(acts, n + 1).consumer, k) && k !in At(acts, n + 1).table
    ensures Removes(At(acts, n).consumer, k) && (k in At(acts, n).table ==> SweptUnderway(acts, k, n))
  {
    AtNext(acts, n);
    RemovesStep(At(acts, n), acts[n], k);
  }

  /** If the entry to remove is gone, a sweep has deleted it since it was found. */
  lemma {:induction false} MissingEntryWasSwept(acts: seq<Act>, n: nat, k: Key) returns (m: nat)
    requires Run(acts).Some? && n <= |acts| && Removes(At(acts, n).consumer, k) && k !in At(acts, n).table
    ensures m < n && SweptUnderway(acts, k, m)
    decreases n
  {
    AtStart(acts);
    RemovesNext(acts, n - 1, k);
    if k in At(acts, n - 1).table {
      m := n - 1;
    } else {
      m := MissingEntryWasSwept(acts, n - 1, k);
    }
  }

  /** Load decides: the consumer goes on to delete exactly when the entry is there. */
  lemma LoadDecides(acts: seq<Act>, n: nat)
    requires Run(acts).Some? && n < |acts| && acts[n].Consume? && At(acts, n).consumer.Checking?
    ensures var s, t := At(acts, n), At(acts, n + 1);
            if s.consumer.key in s.table then t == s.(consumer := Deleting(s.consumer.key))
            else t == s.(consumer := Selecting)
  {
    AtNext(acts, n);
  }
}
