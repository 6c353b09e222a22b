/** Both hooks, called any number of times at once, and the reader, interleaved: a call
    reserves its slot in one step and submits it in another. */
module NetkitRuns {
  import opened Bytes
  import opened Netkit

  datatype Hook = Hook(frame: seq<byte>, direction: byte)

  /** What a hook writes into its slot. */
  function EventOf(h: Hook): seq<byte> {
    if |h.frame| >= 54 then EventBytes(h.frame, h.direction) else []
  }

  /** A call between reservation and submission holds the position of its slot. */
  datatype Work = Work(position: nat, hook: Hook)

  datatype State = State(
    ring: Ring,
    calls: map<nat, Work>,      // those that have reserved and not yet submitted
    hooks: seq<Hook>,           // every call that got a slot, in order of reservation
    delivered: seq<seq<byte>>)  // what the reader has been given

  const INITIAL := State(Ring([], 0), map[], [], [])

  datatype Act = Enter(call: nat, hook: Hook) | Finish(call: nat) | Read

  /** One step, if it is enabled. A call that takes no slot changes nothing. */
  function Do(s: State, capacity: nat, a: Act): Option<State> {
    match a
    case Enter(c, h) =>
      if c in s.calls then None
      else if IsIPv6Frame(h.frame) && HasRoom(s.ring, capacity)
      then
        var w := Work(|s.ring.slots|, h);
        Some(s.(ring := Reserved(s.ring), calls := s.calls[c := w], hooks := s.hooks + [h]))
      else Some(s)
    case Finish(c) =>
      if c !in s.calls then None
      else
        var w := s.calls[c];
        Some(s.(ring := Submitted(s.ring, w.position, EventOf(w.hook)), calls := s.calls - {c}))
    case Read =>
      if CanTake(s.ring)
      then Some(s.(ring := Taken(s.ring), delivered := s.delivered + [s.ring.slots[s.ring.taken].event])) else None
  }

  function Run(capacity: nat, acts: seq<Act>): Option<State>
    decreases |acts|
  {
    if |acts| == 0 then Some(INITIAL)
    else
      var before := Run(capacity, acts[..|acts| - 1]);
      if before.None? then None else Do(before.value, capacity, acts[|acts| - 1])
  }

  /** Some call still holds position `p`. */
  ghost predicate Held(s: State, p: nat) {
    exists c :: c in s.calls && s.calls[c].position == p
  }

  /** Each call holds the slot of its own reservation, and no two the same. */
  ghost predicate CallsSound(s: State) {
    && (forall c :: c in s.calls ==>
          s.calls[c].position < |s.hooks| && s.hooks[s.calls[c].position] == s.calls[c].hook)
    && (forall c, d :: c in s.calls && d in s.calls && c != d ==> s.calls[c].position != s.calls[d].position)
  }

  /** A slot is busy while a call holds it, and then holds the event of that call. */
  ghost predicate SlotSound(s: State, p: nat)
    requires p < |s.hooks| && p < |s.ring.slots|
  {
    IsIPv6Frame(s.hooks[p].frame)
    && if Held(s, p) then s.ring.slots[p].Busy? else s.ring.slots[p] == Ready(EventOf(s.hooks[p]))
  }

  ghost predicate Sound(s: State, capacity: nat) {
    && |s.ring.slots| == |s.hooks| && s.ring.taken == |s.delivered| <= |s.hooks| <= |s.delivered| + capacity
    && CallsSound(s)
    && (forall p :: 0 <= p < |s.hooks| ==> SlotSound(s, p))
    && (forall p :: 0 <= p < |s.delivered| ==> s.ring.slots[p] == Ready(s.delivered[p]))
  }

  lemma EnterKeepsCalls(s: State, capacity: nat, c: nat, h: Hook)
    requires CallsSound(s) && |s.ring.slots| == |s.hooks| && Do(s, capacity, Enter(c, h)).Some?
    ensures CallsSound(Do(s, capacity, Enter(c, h)).value)
  {
  }

  /** Entering holds the new position and releases none. */
  lemma EnterHolds(s: State, capacity: nat, c: nat, h: Hook, p: nat)
    requires |s.ring.slots| == |s.hooks| && Do(s, capacity, Enter(c, h)).Some?
    ensures var t := Do(s, capacity, Enter(c, h)).value;
            Held(t, p) <==> Held(s, p) || |s.hooks| <= p < |t.hooks|
  {
    var t := Do(s, capacity, Enter(c, h)).value;
    if Held(s, p) {
      var d :| d in s.calls && s.calls[d].position == p;
      assert d in t.calls && t.calls[d].position == p;
    }
    if |s.hooks| <= p < |t.hooks| {
      assert t.calls[c].position == p;
    }
  }

  /** Finishing releases the call's position and no other. */
  lemma FinishReleases(s: State, capacity: nat, c: nat, p: nat)
    requires CallsSound(s) && c in s.calls
    ensures var t := Do(s, capacity, Finish(c)).value;
            CallsSound(t) && (Held(t, p) <==> Held(s, p) && p != s.calls[c].position)
  {
    var t := Do(s, capacity, Finish(c)).value;
    if Held(s, p) && p != s.calls[c].position {
      var d :| d in s.calls && s.calls[d].position == p;
      assert d in t.calls && t.calls[d].position == p;
    }
  }

  lemma EnterKeepsSound(s: State, capacity: nat, c: nat, h: Hook)
    requires Sound(s, capacity) && Do(s, capacity, Enter(c, h)).Some?
    ensures Sound(Do(s, capacity, Enter(c, h)).value, capacity)
  {
    var t := Do(s, capacity, Enter(c, h)).value;
    EnterKeepsCalls(s, capacity, c, h);
    forall p | 0 <= p < |t.hooks|
      ensures SlotSound(t, p)
    {
      EnterHolds(s, capacity, c, h, p);
      assert p < |s.hooks| ==> SlotSound(s, p);
    }
  }

  lemma FinishKeepsSound(s: State, capacity: nat, c: nat)
    requires Sound(s, capacity) && c in s.calls
    ensures Sound(Do(s, capacity, Finish(c)).value, capacity)
  {
    var t, w := Do(s, capacity, Finish(c)).value, s.calls[c];
    FinishReleases(s, capacity, c, 0);
    assert Held(s, w.position) && SlotSound(s, w.position);
    forall p | 0 <= p < |t.hooks|
      ensures SlotSound(t, p)
    {
      FinishReleases(s, capacity, c, p);
      assert SlotSound(s, p);
    }
  }

  lemma ReadKeepsSound(s: State, capacity: nat)
    requires Sound(s, capacity) && Do(s, capacity, Read).Some?
    ensures Sound(Do(s, capacity, Read).value, capacity)
  {
    var t := Do(s, capacity, Read).value;
    forall p | 0 <= p < |t.hooks|
      ensures SlotSound(t, p)
    {
      assert SlotSound(s, p) && t.calls == s.calls;
      assert Held(t, p) == Held(s, p);
    }
  }

  lemma {:induction false} RunsAreSound(capacity: nat, acts: seq<Act>)
    requires Run(capacity, acts).Some?
    ensures Sound(Run(capacity, acts).value, capacity)
    decreases |acts|
  {
    if |acts| > 0 {
      var front, a := acts[..|acts| - 1], acts[|acts| - 1];
      RunsAreSound(capacity, front);
      var s := Run(capacity, front).value;
      match a
      case Enter(c, h) => EnterKeepsSound(s, capacity, c, h);
      case Finish(c) => FinishKeepsSound(s, capacity, c);
      case Read => ReadKeepsSound(s, capacity);
    }
  }

  /** In every interleaving the reader is given whole events only, in the order in which the
      calls reserved their slots, whatever the order in which they submitted them: the i-th
      decodes to the header of the i-th frame that got a slot. No slot is lost: when no call
      is at work, every one is ready or delivered. */
  lemma EventsArriveInReservationOrder(capacity: nat, acts: seq<Act>)
    requires Run(capacity, acts).Some?
    ensures var s := Run(capacity, acts).value;
            && |s.delivered| <= |s.hooks| <= |s.delivered| + capacity
            && (forall i :: 0 <= i < |s.delivered| ==>
                  && |s.hooks[i].frame| >= 54
                  && DecodeEvent(s.delivered[i]) == Some(HeaderOf(s.hooks[i].frame, s.hooks[i].direction)))
            && (s.calls == map[] ==> CanTake(s.ring) || |s.delivered| == |s.hooks|)
  {
    RunsAreSound(capacity, acts);
    var s := Run(capacity, acts).value;
    forall i | 0 <= i < |s.delivered|
      ensures |s.hooks[i].frame| >= 54
      ensures DecodeEvent(s.delivered[i]) == Some(HeaderOf(s.hooks[i].frame, s.hooks[i].direction))
    {
      assert SlotSound(s, i);
      EventDecodesToHeader(s.hooks[i].frame, s.hooks[i].direction);
    }
    if s.calls == map[] && |s.delivered| < |s.hooks| {
      assert SlotSound(s, |s.delivered|);
    }
  }

  // How often a slot is submitted.

  predicate Submits(s: State, a: Act, p: nat) {
    a.Finish? && a.call in s.calls && s.calls[a.call].position == p
  }

  /** The number of times position `p` is submitted. */
  function Submissions(capacity: nat, acts: seq<Act>, p: nat): nat
    requires Run(capacity, acts).Some?
    decreases |acts|
  {
    if |acts| == 0 then 0
    else
      var front := acts[..|acts| - 1];
      Submissions(capacity, front, p) + (if Submits(Run(capacity, front).value, acts[|acts| - 1], p) then 1 else 0)
  }

  /** Position `p` has been reserved and its call is done. */
  ghost predicate IsSubmitted(s: State, p: nat) {
    p < |s.hooks| && !Held(s, p)
  }

  lemma StepSubmits(s: State, capacity: nat, a: Act, p: nat)
    requires Sound(s, capacity) && Do(s, capacity, a).Some?
    ensures var t := Do(s, capacity, a).value;
            if Submits(s, a, p) then !IsSubmitted(s, p) && IsSubmitted(t, p)
            else IsSubmitted(t, p) == IsSubmitted(s, p)
  {
    match a
    case Enter(c, h) => EnterHolds(s, capacity, c, h, p);
    case Finish(c) => FinishReleases(s, capacity, c, p);
    case Read => assert Held(Do(s, capacity, a).value, p) == Held(s, p);
  }

  /** Each reservation is submitted at most once, and exactly once unless its call is still
      at work; nothing else is ever submitted. */
  lemma {:induction false} EachReservationIsSubmittedOnce(capacity: nat, acts: seq<Act>, p: nat)
    requires Run(capacity, acts).Some?
    ensures var s := Run(capacity, acts).value;
            Submissions(capacity, acts, p) == if IsSubmitted(s, p) then 1 else 0
    decreases |acts|
  {
    if |acts| > 0 {
      var front, a := acts[..|acts| - 1], acts[|acts| - 1];
      RunsAreSound(capacity, front);
      EachReservationIsSubmittedOnce(capacity, front, p);
      StepSubmits(Run(capacity, front).value, capacity, a, p);
    }
  }

  /** The two steps of one call in a row are what the method for the whole hook does. */
  lemma LoneHookIsAfterFrame(s: State, capacity: nat, c: nat, h: Hook)
    requires c !in s.calls
    ensures var entered := Do(s, capacity, Enter(c, h)).value;
            var after := AfterFrame(s.ring, capacity, h.frame, h.direction);
            if IsIPv6Frame(h.frame) && HasRoom(s.ring, capacity)
            then var finished := Do(entered, capacity, Finish(c)); finished.Some? && finished.value.ring == after
            else entered.ring == after
  {
  }
}
