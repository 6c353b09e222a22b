/** From the frame to the packet user space works with: what survives the trip through
    the 48-byte record, when that is what the wire says, and what the record's address
    bytes mean for the flow key. */
module Wire {
  import opened Bytes
  import opened Protocols
  import opened KernelFlow
  import Fnv
  import Packets

  const SRC_PREFIX: seq<byte> := [0, 0, 0, 0, 0, 0, 0, 0, 0, 0, 0, 0]
  const DST_PREFIX: seq<byte> := [0, 0, 0, 0, 0xff, 0xff, 0, 0, 0, 0, 0, 0]

  /** The packet read off a frame whose transport header starts at `at`, with the two
      address fields as the record pads them. */
  function PacketAt(frame: seq<byte>, at: nat, now: u64): Packets.Packet
    requires |frame| >= 34 && at + 4 <= |frame| && (frame[23] == TCP ==> at + 14 <= |frame|)
  {
    var isTcp := frame[23] == TCP;
    Packets.Packet(
      SRC_PREFIX + frame[26..30], DST_PREFIX + frame[30..34],
      Be16(frame[at], frame[at + 1]), Be16(frame[at + 2], frame[at + 3]),
      frame[23], frame[22],
      isTcp && frame[at + 13] & 0x02 != 0, isTcp && frame[at + 13] & 0x10 != 0,
      now)
  }

  const ASSUMED_TRANSPORT := 34

  /** What user space observes: the program takes every IPv4 header for 20 bytes long. */
  function ObservedPacket(frame: seq<byte>, now: u64): Packets.Packet
    requires |frame| >= 54
  {
    PacketAt(frame, ASSUMED_TRANSPORT, now)
  }

  lemma RecordParts(frame: seq<byte>, now: u64)
    requires |frame| >= 54
    ensures var r := Record(frame, now);
            && r[0..16] == SRC_PREFIX + frame[26..30]
            && r[16..32] == DST_PREFIX + frame[30..34]
            && r[40..48] == PutLe64(now)
  {
    var r := Record(frame, now);
    SliceIs(r, 0, SRC_PREFIX + frame[26..30]);
    SliceIs(r, 16, DST_PREFIX + frame[30..34]);
    SliceIs(r, 40, PutLe64(now));
  }

  /** The record format does no harm: the decoder returns the ports, flags, protocol and
      TTL at the offsets the program read them from, and its clock value, although the
      padding stores overlap the bytes of protocol, TTL and flags. */
  lemma RecordDecodesToObserved(skb: Skb, now: u64)
    requires Accepts(skb)
    ensures Packets.Unmarshal(Record(skb.frame, now)) == Some(ObservedPacket(skb.frame, now))
    ensures Packets.Layout(ObservedPacket(skb.frame, now)) == Record(skb.frame, now)
  {
    var r := Record(skb.frame, now);
    RecordParts(skb.frame, now);
    Le64RoundTrip(now, r[40..48]);
    Packets.LayoutOfUnmarshal(r);
  }

  // What the wire says, by section 3.1 of RFC 791.

  /** The header length in 32-bit words. */
  function HeaderWords(frame: seq<byte>): byte
    requires |frame| >= 34
  {
    frame[14] & 0x0f
  }

  function TransportOffset(frame: seq<byte>): nat
    requires |frame| >= 34
  {
    14 + 4 * (HeaderWords(frame) as int)
  }

  /** The length of the datagram, header included. What the frame holds behind it is padding. */
  function TotalLength(frame: seq<byte>): nat
    requires |frame| >= 34
  {
    256 * (frame[16] as int) + frame[17] as int
  }

  /** The frame carries a whole version 4 datagram with a correct header length. */
  predicate HasDatagram(frame: seq<byte>) {
    && |frame| >= 34 && frame[14] & 0xf0 == 0x40 && HeaderWords(frame) >= 5
    && TransportOffset(frame) <= 14 + TotalLength(frame) <= |frame|
  }

  /** Only a fragment with offset 0 holds the transport header. */
  predicate FirstFragment(frame: seq<byte>)
    requires |frame| >= 34
  {
    frame[20] & 0x1f == 0 && frame[21] == 0
  }

  /** The datagram holds a whole transport header behind its own. */
  predicate HasTransport(frame: seq<byte>) {
    && HasDatagram(frame) && FirstFragment(frame)
    && TransportOffset(frame) + (if frame[23] == TCP then 20 else 8) <= 14 + TotalLength(frame)
  }

  function WirePacket(frame: seq<byte>, now: u64): Packets.Packet
    requires HasTransport(frame)
  {
    PacketAt(frame, TransportOffset(frame), now)
  }

  predicate DecodesToTheWire(skb: Skb, now: u64) {
    Accepts(skb) && HasTransport(skb.frame)
    && Packets.Unmarshal(Record(skb.frame, now)) == Some(WirePacket(skb.frame, now))
  }

  /** A frame without IPv4 options arrives as the wire has it exactly when the wire has a
      transport header in it. */
  lemma PlainFramesDecodeToTheWire(skb: Skb, now: u64)
    requires Accepts(skb) && HeaderWords(skb.frame) == 5
    ensures DecodesToTheWire(skb, now) <==> HasTransport(skb.frame)
  {
    RecordDecodesToObserved(skb, now);
  }

  /** A UDP frame with the given header length and no padding: ff ff ff ff where the program
      looks for the ports, and something else where any other header would have them. */
  function FrameWithHeader(words: byte): (frame: seq<byte>)
    ensures |frame| == 94
  {
    seq(94, i => if i == 12 then 8 else if i == 14 then 0x40 | words else if i == 17 then 80
                 else if i == 23 then UDP else if 34 <= i < 38 then 0xff else 0)
  }

  lemma FrameWithHeaderIsAccepted(words: byte)
    requires 5 <= words < 16
    ensures var frame := FrameWithHeader(words);
            && Accepts(Skb(0, 0, frame)) && HasTransport(frame) && HeaderWords(frame) == words && frame[23] == UDP
            && frame[34] == 0xff && (words != 5 ==> frame[TransportOffset(frame)] != 0xff)
  {
    HeaderNibble(words);
    var frame := FrameWithHeader(words);
    assert frame[16] == 0 && frame[17] == 80;
  }

  /** The decoded source port is the one at the assumed offset, whatever the header says. */
  lemma SourcePorts(skb: Skb, now: u64)
    requires Accepts(skb) && HasTransport(skb.frame) && skb.frame[23] == UDP
    ensures var at := TransportOffset(skb.frame);
            && Packets.Unmarshal(Record(skb.frame, now)).value.srcPort == Be16(skb.frame[34], skb.frame[35])
            && WirePacket(skb.frame, now).srcPort == Be16(skb.frame[at], skb.frame[at + 1])
  {
    RecordDecodesToObserved(skb, now);
  }

  lemma PortsElsewhere(words: byte, now: u64)
    requires 5 < words < 16
    ensures !DecodesToTheWire(Skb(0, 0, FrameWithHeader(words)), now)
  {
    FrameWithHeaderIsAccepted(words);
    var skb := Skb(0, 0, FrameWithHeader(words));
    var at := TransportOffset(skb.frame);
    SourcePorts(skb, now);
    HighByteSeparates(skb.frame[at], skb.frame[at + 1], skb.frame[34], skb.frame[35]);
  }

  lemma HeaderNibble(words: byte)
    requires words < 16
    ensures (0x40 | words) & 0x0f == words && (0x40 | words) & 0xf0 == 0x40
    ensures 0 <= words as int < 16 && (words >= 5 <==> words as int >= 5) && (words == 5 <==> words as int == 5)
  {
  }

  lemma HighByteSeparates(a: byte, b: byte, c: byte, d: byte)
    requires a != c
    ensures Be16(a, b) != Be16(c, d)
  {
  }

  /** The program assumes a header of five words, the least there can be: it decodes every
      frame of a given header length that holds a transport header to what the wire says if
      and only if the length is no greater. */
  lemma DecodingIsFaithfulExactlyForPlainHeaders(words: byte)
    requires words < 16
    ensures (forall skb: Skb, now: u64 ::
               Accepts(skb) && HasTransport(skb.frame) && HeaderWords(skb.frame) == words
               ==> DecodesToTheWire(skb, now))
            <==> words <= 5
  {
    if words <= 5 {
      forall skb: Skb, now: u64 |
        Accepts(skb) && HasTransport(skb.frame) && HeaderWords(skb.frame) == words
        ensures DecodesToTheWire(skb, now)
      {
        PlainFramesDecodeToTheWire(skb, now);
      }
    } else {
      FrameWithHeaderIsAccepted(words);
      PortsElsewhere(words, 0);
      assert !DecodesToTheWire(Skb(0, 0, FrameWithHeader(words)), 0);
    }
  }

  /** A datagram from 10.0.0.1:40000 to 10.0.0.2:53 behind a header with one word of options. */
  const OPTIONS_FRAME :=
    Skb(0, 0, seq(58, i => if i == 12 then 8 else if i == 14 then 0x46 else if i == 17 then 44
                           else if i == 22 then 64 else if i == 23 then UDP
                           else if i == 26 || i == 30 then 10 else if i == 29 then 1 else if i == 33 then 2
                           else if 34 <= i < 38 then 0x01
                           else if i == 38 then 0x9c else if i == 39 then 0x40
                           else if i == 41 then 53 else if i == 43 then 20 else 0))

  /** Its source port is 40000; what is decoded are two bytes of the options. */
  lemma OptionsAreTakenForPorts(now: u64)
    ensures Accepts(OPTIONS_FRAME) && HasTransport(OPTIONS_FRAME.frame)
    ensures WirePacket(OPTIONS_FRAME.frame, now).srcPort == 40000
    ensures Packets.Unmarshal(Record(OPTIONS_FRAME.frame, now)).value.srcPort == 0x0101
  {
    var f := OPTIONS_FRAME.frame;
    assert f[14] == 0x46 && f[16] == 0 && f[17] == 44 && f[20] == 0 && f[21] == 0 && f[23] == UDP;
    assert f[34] == 0x01 && f[35] == 0x01 && f[38] == 0x9c && f[39] == 0x40;
    HeaderNibble(6);
    assert 0x40 | 6 == 0x46 as byte;
    SourcePorts(OPTIONS_FRAME, now);
  }

  /** A later fragment of a datagram: what lies behind its header is no UDP header. */
  const LATER_FRAGMENT :=
    Skb(0, 0, seq(94, i => if i == 12 then 8 else if i == 14 then 0x45 else if i == 17 then 80
                           else if i == 21 then 185 else if i == 23 then UDP else 0))

  lemma LaterFragmentsAreRecorded()
    ensures Accepts(LATER_FRAGMENT) && HasDatagram(LATER_FRAGMENT.frame) && !FirstFragment(LATER_FRAGMENT.frame)
  {
    var f := LATER_FRAGMENT.frame;
    assert f[14] == 0x45 && f[16] == 0 && f[17] == 80 && f[21] == 185;
    HeaderNibble(5);
  }

  /** A first TCP fragment of 28 bytes in a frame padded to 60: a byte of the padding lies
      where the program looks for the flags. */
  const PADDED_FRAGMENT :=
    Skb(0, 0, seq(60, i => if i == 12 then 8 else if i == 14 then 0x45 else if i == 17 then 28
                           else if i == 20 then 0x20 else if i == 23 then TCP
                           else if i == 47 then 0x02 else 0))

  lemma PaddingIsTakenForFlags(now: u64)
    ensures Accepts(PADDED_FRAGMENT) && HasDatagram(PADDED_FRAGMENT.frame) && FirstFragment(PADDED_FRAGMENT.frame)
    ensures HeaderWords(PADDED_FRAGMENT.frame) == 5 && !HasTransport(PADDED_FRAGMENT.frame)
    ensures 14 + TotalLength(PADDED_FRAGMENT.frame) <= 47
    ensures Packets.Unmarshal(Record(PADDED_FRAGMENT.frame, now)).value.syn
  {
    var f := PADDED_FRAGMENT.frame;
    assert f[14] == 0x45 && f[16] == 0 && f[17] == 28 && f[20] == 0x20 && f[21] == 0 && f[23] == TCP && f[47] == 0x02;
    HeaderNibble(5);
    RecordDecodesToObserved(PADDED_FRAGMENT, now);
  }

  /** A bare header in a frame padded with aa. */
  const PADDED_HEADER :=
    Skb(0, 0, seq(60, i => if i == 12 then 8 else if i == 14 then 0x45 else if i == 17 then 20
                           else if i == 23 then UDP else if i >= 34 then 0xaa else 0))

  lemma PaddingIsTakenForPorts(now: u64)
    ensures Accepts(PADDED_HEADER) && HasDatagram(PADDED_HEADER.frame) && FirstFragment(PADDED_HEADER.frame)
    ensures HeaderWords(PADDED_HEADER.frame) == 5 && !HasTransport(PADDED_HEADER.frame)
    ensures 14 + TotalLength(PADDED_HEADER.frame) <= 34
    ensures Packets.Unmarshal(Record(PADDED_HEADER.frame, now)).value.srcPort == 0xaaaa
  {
    var f := PADDED_HEADER.frame;
    assert f[14] == 0x45 && f[16] == 0 && f[17] == 20 && f[20] == 0 && f[21] == 0 && f[23] == UDP;
    assert f[34] == 0xaa && f[35] == 0xaa;
    HeaderNibble(5);
    RecordDecodesToObserved(PADDED_HEADER, now);
  }

  /** The IPv4-mapped form of section 2.5.5.2 of RFC 4291. */
  predicate IsIPv4Mapped(a: seq<byte>) {
    && |a| == 16
    && (forall i :: 0 <= i < 10 ==> a[i] == 0)
    && a[10] == 0xff && a[11] == 0xff
  }

  /** The comment in the source asks for IPv4-mapped addresses; no record has one. */
  lemma AddressesAreNeverMapped(skb: Skb, now: u64)
    requires Accepts(skb)
    ensures var p := Packets.Unmarshal(Record(skb.frame, now)).value;
            !IsIPv4Mapped(p.srcIP) && !IsIPv4Mapped(p.dstIP)
  {
  }

  // The flow key of a frame and of its reply.

  /** Address and port of the two ends, of a transport header at `at`. */
  function SenderAt(frame: seq<byte>, at: nat): (e: seq<byte>)
    requires |frame| >= 34 && at + 4 <= |frame|
    ensures |e| == 6
  {
    frame[26..30] + frame[at..at + 2]
  }

  function ReceiverAt(frame: seq<byte>, at: nat): (e: seq<byte>)
    requires |frame| >= 34 && at + 4 <= |frame|
    ensures |e| == 6
  {
    frame[30..34] + frame[at + 2..at + 4]
  }

  /** The ends as the program takes them. */
  function Sender(frame: seq<byte>): (e: seq<byte>)
    requires |frame| >= 54
    ensures |e| == 6
  {
    SenderAt(frame, ASSUMED_TRANSPORT)
  }

  function Receiver(frame: seq<byte>): (e: seq<byte>)
    requires |frame| >= 54
    ensures |e| == 6
  {
    ReceiverAt(frame, ASSUMED_TRANSPORT)
  }

  /** To the program, `reply` answers `frame`. */
  predicate LooksLikeReply(frame: seq<byte>, reply: seq<byte>) {
    && |frame| >= 54 && |reply| >= 54
    && reply[23] == frame[23]
    && Sender(reply) == Receiver(frame) && Receiver(reply) == Sender(frame)
  }

  /** On the wire, `reply` answers `frame`. */
  predicate IsReply(frame: seq<byte>, reply: seq<byte>) {
    && HasTransport(frame) && HasTransport(reply)
    && reply[23] == frame[23]
    && SenderAt(reply, TransportOffset(reply)) == ReceiverAt(frame, TransportOffset(frame))
    && ReceiverAt(reply, TransportOffset(reply)) == SenderAt(frame, TransportOffset(frame))
  }

  /** Without options on either side the program sees replies as they are, among the frames
      that hold a transport header. */
  lemma PlainRepliesAreSeen(frame: seq<byte>, reply: seq<byte>)
    requires |frame| >= 54 && |reply| >= 54 && HeaderWords(frame) == 5 && HeaderWords(reply) == 5
    ensures IsReply(frame, reply) <==> HasTransport(frame) && HasTransport(reply) && LooksLikeReply(frame, reply)
  {
  }

  function AsSource(e: seq<byte>): bv64 {
    Fnv.Hash(SRC_PREFIX + e)
  }

  function AsDestination(e: seq<byte>): bv64 {
    Fnv.Hash(DST_PREFIX + e)
  }

  /** How far an endpoint's hash moves when it changes from destination to source. */
  function Skew(e: seq<byte>): bv64 {
    Subtract(AsSource(e), AsDestination(e))
  }

  lemma KeyOfEndpoints(frame: seq<byte>, now: u64)
    requires |frame| >= 54
    ensures Packets.FlowKey(ObservedPacket(frame, now))
            == Packets.Key(Add(Add(AsSource(Sender(frame)), AsDestination(Receiver(frame))),
                               Fnv.Hash(PutBe16(frame[23] as bv16))))
  {
    var p := ObservedPacket(frame, now);
    Be16RoundTrip(0, frame[34], frame[35]);
    Be16RoundTrip(0, frame[36], frame[37]);
    assert frame[34..36] == [frame[34], frame[35]];
    assert frame[36..38] == [frame[36], frame[37]];
    assert Packets.Endpoint(p.srcIP, p.srcPort) == SRC_PREFIX + Sender(frame);
    assert Packets.Endpoint(p.dstIP, p.dstPort) == DST_PREFIX + Receiver(frame);
  }

  lemma KeyIgnoresClock(frame: seq<byte>, now: u64, later: u64)
    requires |frame| >= 54
    ensures Packets.FlowKey(ObservedPacket(frame, now)) == Packets.FlowKey(ObservedPacket(frame, later))
  {
    KeyOfEndpoints(frame, now);
    KeyOfEndpoints(frame, later);
  }

  /** A request and its reply share a flow key exactly when their two endpoints have the
      same skew, a value each endpoint has by itself. */
  lemma ReplySharesKey(frame: seq<byte>, reply: seq<byte>, now: u64, later: u64)
    requires LooksLikeReply(frame, reply)
    ensures Packets.FlowKey(ObservedPacket(frame, now)) == Packets.FlowKey(ObservedPacket(reply, later))
            <==> Skew(Sender(frame)) == Skew(Receiver(frame))
  {
    var c, s := Sender(frame), Receiver(frame);
    KeyOfEndpoints(frame, now);
    KeyOfEndpoints(reply, later);
    AddCancels(Add(AsSource(c), AsDestination(s)), Add(AsSource(s), AsDestination(c)),
               Fnv.Hash(PutBe16(frame[23] as bv16)));
    if Add(AsSource(c), AsDestination(s)) == Add(AsSource(s), AsDestination(c)) {
      EqualSumsGiveEqualDifferences(AsSource(c), AsDestination(s), AsSource(s), AsDestination(c));
    }
    if Skew(c) == Skew(s) {
      EqualDifferencesGiveEqualSums(AsSource(c), AsDestination(s), AsSource(s), AsDestination(c));
    }
  }

  /** A bare TCP segment over IPv4 between two endpoints of address and port. */
  function TcpFrame(sender: seq<byte>, receiver: seq<byte>, flags: byte): (f: seq<byte>)
    requires |sender| == 6 && |receiver| == 6
    ensures |f| == 54
    ensures f[12] == 0x08 && f[13] == 0x00 && f[23] == TCP && f[47] == flags
    ensures Sender(f) == sender && Receiver(f) == receiver
    ensures FirstFragment(f) && f[14] == 0x45 && f[16] == 0 && f[17] == 40
  {
    var f := [0, 0, 0, 0, 0, 0, 0, 0, 0, 0, 0, 0, 0x08, 0x00]
             + [0x45, 0, 0, 40, 0, 0, 0, 0, 64, 6, 0, 0] + sender[..4] + receiver[..4]
             + sender[4..] + receiver[4..] + [0, 0, 0, 0, 0, 0, 0, 0, 0x50, flags, 0, 0, 0, 0, 0, 0];
    assert f[26..30] == sender[..4] && f[30..34] == receiver[..4];
    assert f[34..36] == sender[4..] && f[36..38] == receiver[4..];
    f
  }

  const CLIENT: seq<byte> := [10, 0, 0, 1, 0x9c, 0x40]
  const SERVER: seq<byte> := [10, 0, 0, 2, 0x01, 0xbb]

  /** The hasher's states after the two address paddings. */
  lemma SourcePaddingState()
    ensures Fnv.Feed(Fnv.OFFSET_BASIS, SRC_PREFIX) == 6082024272624116885
  {
  }

  lemma DestinationPaddingState()
    ensures Fnv.Feed(Fnv.OFFSET_BASIS, DST_PREFIX) == 16262185830814053851
  {
  }

  lemma StatesAfterPadding(e: seq<byte>)
    ensures AsSource(e) == Fnv.Feed(6082024272624116885, e)
    ensures AsDestination(e) == Fnv.Feed(16262185830814053851, e)
  {
    SourcePaddingState();
    DestinationPaddingState();
    Fnv.FeedConcat(Fnv.OFFSET_BASIS, SRC_PREFIX, e);
    Fnv.FeedConcat(Fnv.OFFSET_BASIS, DST_PREFIX, e);
  }

  lemma HashesOfClientAndServer()
    ensures AsSource(CLIENT) == 1041031555195122176 && AsDestination(CLIENT) == 4251889577333091906
    ensures AsSource(SERVER) == 2817136459444021189 && AsDestination(SERVER) == 3745355565473917391
  {
    StatesAfterPadding(CLIENT);
    StatesAfterPadding(SERVER);
    assert Fnv.Feed(6082024272624116885, [10, 0, 0, 1, 0x9c, 0x40]) == 1041031555195122176;
    assert Fnv.Feed(16262185830814053851, [10, 0, 0, 1, 0x9c, 0x40]) == 4251889577333091906;
    assert Fnv.Feed(6082024272624116885, [10, 0, 0, 2, 0x01, 0xbb]) == 2817136459444021189;
    assert Fnv.Feed(16262185830814053851, [10, 0, 0, 2, 0x01, 0xbb]) == 3745355565473917391;
  }

  /** 10.0.0.1:40000 and 10.0.0.2:443 have different skews. */
  lemma ClientAndServerDiffer()
    ensures Skew(CLIENT) != Skew(SERVER)
  {
    HashesOfClientAndServer();
  }

  /** The two keys of their handshake, by number. */
  lemma KeysOfAHandshake(now: u64)
    ensures Packets.FlowKey(ObservedPacket(TcpFrame(CLIENT, SERVER, 0x02), now)) == Packets.Key(5377064591419703690)
    ensures Packets.FlowKey(ObservedPacket(TcpFrame(SERVER, CLIENT, 0x12), now)) == Packets.Key(7659703507527777218)
  {
    var syn, synAck := TcpFrame(CLIENT, SERVER, 0x02), TcpFrame(SERVER, CLIENT, 0x12);
    KeyOfEndpoints(syn, now);
    KeyOfEndpoints(synAck, now);
    HashesOfClientAndServer();
    HashOfTcp();
    assert Add(Add(1041031555195122176, 3745355565473917391), 590677470750664123) == 5377064591419703690;
    assert Add(Add(2817136459444021189, 4251889577333091906), 590677470750664123) == 7659703507527777218;
  }

  lemma HashOfTcp()
    ensures Fnv.Hash(PutBe16(TCP as bv16)) == 590677470750664123
  {
    assert PutBe16(6) == [0, 6];
    assert Fnv.Hash([0, 6]) == 590677470750664123;
  }
}
