/** The netkit monitor: the kernel hook that turns an IPv6 frame into a packed 37-byte
    event, and the user-space decoder of that event. */
module Netkit {
  import opened Bytes

  const NETKIT_PASS := 0
  const EVENT_SIZE := 37
  const PRIMARY: byte := 0
  const PEER: byte := 1

  /** The hook's condition: a whole IPv6 header behind an Ethernet header of type 0x86DD. */
  predicate IsIPv6Frame(frame: seq<byte>) {
    |frame| >= 54 && frame[12] == 0x86 && frame[13] == 0xdd
  }

  /** What the monitor tells about a frame. */
  datatype Event = Event(source: seq<byte>, destination: seq<byte>,
                         nextHeader: byte, payloadLength: bv16, hopLimit: byte, peer: bool)

  /** The header fields at their places in section 3 of RFC 8200, behind 14 bytes of Ethernet. */
  function HeaderOf(frame: seq<byte>, direction: byte): Event
    requires |frame| >= 54
  {
    Event(frame[22..38], frame[38..54], frame[20], Be16(frame[18], frame[19]), frame[21], direction == PEER)
  }

  /** The event as it lies in memory on a little-endian host. */
  function EventBytes(frame: seq<byte>, direction: byte): (e: seq<byte>)
    requires |frame| >= 54
    ensures |e| == EVENT_SIZE
  {
    frame[22..38] + frame[38..54] + [frame[20], frame[19], frame[18], frame[21], direction]
  }

  function DecodeEvent(data: seq<byte>): Option<Event> {
    if |data| < EVENT_SIZE then None
    else Some(Event(data[0..16], data[16..32], data[32], Le16(data[33], data[34]), data[35], data[36] == PEER))
  }

  /** Two byte-order conversions cancel: the decoded event is the frame's header. */
  lemma EventDecodesToHeader(frame: seq<byte>, direction: byte)
    requires |frame| >= 54
    ensures DecodeEvent(EventBytes(frame, direction)) == Some(HeaderOf(frame, direction))
  {
    var e := EventBytes(frame, direction);
    assert e[0..16] == frame[22..38];
    assert e[16..32] == frame[38..54];
  }

  // The event ring: slots in the order of their reservation.

  datatype Slot = Busy | Ready(event: seq<byte>)

  /** All slots ever reserved, of which the reader has taken the first `taken`. */
  datatype Ring = Ring(slots: seq<Slot>, taken: nat)

  predicate HasRoom(r: Ring, capacity: nat) {
    |r.slots| < r.taken + capacity
  }

  function Reserved(r: Ring): Ring {
    r.(slots := r.slots + [Busy])
  }

  function Submitted(r: Ring, position: nat, event: seq<byte>): Ring {
    if position < |r.slots| then r.(slots := r.slots[position := Ready(event)]) else r
  }

  /** The reader waits for the oldest slot it has not taken, even if later ones are ready. */
  predicate CanTake(r: Ring) {
    r.taken < |r.slots| && r.slots[r.taken].Ready?
  }

  function Taken(r: Ring): Ring {
    r.(taken := r.taken + 1)
  }

  /** The ring after a hook that nothing interrupts. */
  function AfterFrame(r: Ring, capacity: nat, frame: seq<byte>, direction: byte): Ring {
    if IsIPv6Frame(frame) && HasRoom(r, capacity)
    then Submitted(Reserved(r), |r.slots|, EventBytes(frame, direction)) else r
  }

  class EventRing {
    const capacity: nat
    var ring: Ring

    constructor (capacity: nat)
      ensures this.capacity == capacity && ring == Ring([], 0)
    {
      this.capacity := capacity;
      ring := Ring([], 0);
    }

    /** A slot at the end, of undefined contents until it is written. */
    method Reserve(size: nat) returns (position: nat, slot: array?<byte>)
      modifies this
      ensures slot != null <==> HasRoom(old(ring), capacity)
      ensures slot != null ==> fresh(slot) && slot.Length == size && position == |old(ring.slots)|
      ensures ring == if slot != null then Reserved(old(ring)) else old(ring)
    {
      position := |ring.slots|;
      if |ring.slots| < ring.taken + capacity {
        slot := new byte[size];
        ring := ring.(slots := ring.slots + [Busy]);
      } else {
        slot := null;
      }
    }

    method Submit(position: nat, slot: array<byte>)
      requires position < |ring.slots| && ring.slots[position].Busy?
      modifies this
      ensures ring == Submitted(old(ring), position, slot[..])
    {
      ring := ring.(slots := ring.slots[position := Ready(slot[..])]);
    }

    /** The next event in reservation order, or None while its hook is still at work. */
    method Read() returns (event: Option<seq<byte>>)
      modifies this
      ensures event.Some? <==> CanTake(old(ring))
      ensures event.Some? ==> event.value == old(ring.slots[ring.taken].event)
      ensures ring == if event.Some? then Taken(old(ring)) else old(ring)
    {
      if ring.taken < |ring.slots| && ring.slots[ring.taken].Ready? {
        event := Some(ring.slots[ring.taken].event);
        ring := ring.(taken := ring.taken + 1);
      } else {
        event := None;
      }
    }
  }

  method CopyBytes(slot: array<byte>, at: nat, frame: seq<byte>, from: nat, count: nat)
    requires at + count <= slot.Length && from + count <= |frame|
    modifies slot
    ensures slot[..] == old(slot[..at]) + frame[from..from + count] + old(slot[at + count..])
  {
    forall i | 0 <= i < count {
      slot[at + i] := frame[from + i];
    }
  }

  /** `event->payload_len = bpf_ntohs(...)`: load, swap, store unaligned. */
  method StorePayloadLength(slot: array<byte>, frame: seq<byte>)
    requires slot.Length == EVENT_SIZE && |frame| >= 54
    modifies slot
    ensures slot[33] == frame[19] && slot[34] == frame[18]
    ensures forall i :: 0 <= i < EVENT_SIZE && i != 33 && i != 34 ==> slot[i] == old(slot[i])
  {
    var host := Swap16(Le16(frame[18], frame[19]));
    slot[33], slot[34] := (host & 0xff) as bv8, ((host >> 8) & 0xff) as bv8;
  }

  method EtherTypeIsIPv6(frame: seq<byte>) returns (equal: bool)
    requires |frame| >= 14
    ensures equal <==> frame[12] == 0x86 && frame[13] == 0xdd
  {
    equal := Le16(frame[12], frame[13]) == Swap16(0x86dd);
  }

  /** The stores between reservation and submission: they write every byte of the slot. */
  method FillEvent(event: array<byte>, frame: seq<byte>, ip6: nat, direction: byte)
    requires event.Length == EVENT_SIZE && |frame| >= 54 && ip6 == 14
    modifies event
    ensures event[..] == EventBytes(frame, direction)
  {
    CopyBytes(event, 0, frame, ip6 + 8, 16);
    CopyBytes(event, 16, frame, ip6 + 24, 16);
    assert event[..32] == frame[22..38] + frame[38..54];
    event[32] := frame[ip6 + 6];
    StorePayloadLength(event, frame);
    event[35] := frame[ip6 + 7];
    event[36] := direction;
    assert event[..32] == frame[22..38] + frame[38..54];
    assert event[..] == event[..32] + [event[32], event[33], event[34], event[35], event[36]];
  }

  /** `process_ipv6`: every path passes the packet on, and a slot that was reserved has been
      written completely and submitted by the time it returns. */
  method ProcessIPv6(frame: seq<byte>, direction: byte, events: EventRing) returns (verdict: int)
    modifies events
    ensures verdict == NETKIT_PASS
    ensures events.ring == AfterFrame(old(events.ring), events.capacity, frame, direction)
  {
    var data, dataEnd := 0, |frame|;

    if data + 14 > dataEnd {
      return NETKIT_PASS;
    }

    var isIPv6 := EtherTypeIsIPv6(frame);
    if !isIPv6 {
      return NETKIT_PASS;
    }

    var ip6 := data + 14;

    if ip6 + 40 > dataEnd {
      return NETKIT_PASS;
    }

    var position, event := events.Reserve(EVENT_SIZE);
    if event == null {
      return NETKIT_PASS;
    }

    FillEvent(event, frame, ip6, direction);
    events.Submit(position, event);

    return NETKIT_PASS;
  }

  method NetkitPrimary(frame: seq<byte>, events: EventRing) returns (verdict: int)
    modifies events
    ensures verdict == NETKIT_PASS
    ensures events.ring == AfterFrame(old(events.ring), events.capacity, frame, PRIMARY)
  {
    verdict := ProcessIPv6(frame, 0, events);
  }

  method NetkitPeer(frame: seq<byte>, events: EventRing) returns (verdict: int)
    modifies events
    ensures verdict == NETKIT_PASS
    ensures events.ring == AfterFrame(old(events.ring), events.capacity, frame, PEER)
  {
    verdict := ProcessIPv6(frame, 1, events);
  }

  /** `printEvent` up to the printing: None when the sample is too short. */
  method PrintEvent(data: seq<byte>) returns (printed: Option<Event>)
    ensures printed == DecodeEvent(data)
  {
    if |data| < 37 {
      return None;
    }

    var srcAddr, dstAddr := new byte[16], new byte[16];
    CopyBytes(srcAddr, 0, data, 0, 16);
    CopyBytes(dstAddr, 0, data, 16, 16);
    assert srcAddr[..] == data[0..16];
    assert dstAddr[..] == data[16..32];

    var nextHeader := data[32];
    var payloadLen := Le16(data[33], data[34]);
    var hopLimit := data[35];
    var direction := data[36];

    var peer := false;
    if direction == 1 {
      peer := true;
    }

    printed := Some(Event(srcAddr[..], dstAddr[..], nextHeader, payloadLen, hopLimit, peer));
  }

  /** An event of 37 bytes with the header of the frame, byte 36 telling the hook, and what
      the reader makes of it. */
  ghost predicate Tells(event: seq<byte>, frame: seq<byte>, direction: byte, peer: bool)
    requires |frame| >= 54
  {
    && |event| == 37 && event[36] == direction
    && var e := DecodeEvent(event);
       && e.Some? && e.value.peer == peer
       && e.value.source == frame[22..38] && e.value.destination == frame[38..54]
       && e.value.nextHeader == frame[20] && e.value.hopLimit == frame[21]
       && e.value.payloadLength == (frame[18] as bv16) * 256 + frame[19] as bv16
  }

  /** One event more if the frame is IPv6 and there is room, and nothing else changed. */
  ghost predicate OneEventMore(before: Ring, after: Ring, capacity: nat, frame: seq<byte>,
                               direction: byte, peer: bool)
  {
    if |frame| >= 54 && frame[12] == 0x86 && frame[13] == 0xdd && |before.slots| < before.taken + capacity
    then
      var n := |before.slots|;
      && after.taken == before.taken && |after.slots| == n + 1 && after.slots[..n] == before.slots
      && after.slots[n].Ready? && Tells(after.slots[n].event, frame, direction, peer)
    else after == before
  }

  lemma AfterFrameTells(before: Ring, capacity: nat, frame: seq<byte>, direction: byte)
    ensures OneEventMore(before, AfterFrame(before, capacity, frame, direction), capacity, frame,
                         direction, direction == 1)
  {
    if |frame| >= 54 {
      EventDecodesToHeader(frame, direction);
      Be16Value(frame[18], frame[19]);
    }
  }

  /** What a frame leaves at either hook: exactly one event from an IPv6 frame that finds
      room, telling 0 and decoded as the primary's, or 1 and as the peer's. */
  method BothHooks(frame: seq<byte>, primary: EventRing, peer: EventRing) returns (verdict: int, peerVerdict: int)
    requires primary != peer
    modifies primary, peer
    ensures verdict == 0 && peerVerdict == 0
    ensures OneEventMore(old(primary.ring), primary.ring, primary.capacity, frame, 0, false)
    ensures OneEventMore(old(peer.ring), peer.ring, peer.capacity, frame, 1, true)
  {
    AfterFrameTells(primary.ring, primary.capacity, frame, 0);
    AfterFrameTells(peer.ring, peer.capacity, frame, 1);
    verdict := NetkitPrimary(frame, primary);
    peerVerdict := NetkitPeer(frame, peer);
  }
}
