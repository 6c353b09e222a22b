/** The user-space packet: the decoder of the 48-byte kernel record and the
    five-tuple flow key. */
module Packets {
  import opened Bytes
  import opened Protocols
  import Fnv

  /** What `netip.Addr.AsSlice` returns: nothing for the zero address, else 4 or 16 bytes. */
  type Addr = a: seq<byte> | |a| == 0 || |a| == 4 || |a| == 16 witness []

  datatype Packet = Packet(
    srcIP: Addr, dstIP: Addr,
    srcPort: bv16, dstPort: bv16,
    protocol: byte, ttl: byte,
    syn: bool, ack: bool,
    timestamp: u64)

  /** The decoder. None stands for the run-time panic of a slice that is too short;
      a 16-byte slice always is an address, so there is no other failure. */
  function Unmarshal(input: seq<byte>): Option<Packet> {
    if |input| < RECORD_SIZE then
      None
    else
      Some(Packet(
             input[0..16], input[16..32],
             Be16(input[32], input[33]), Be16(input[34], input[35]),
             input[36], input[37],
             input[38] == 1, input[39] == 1,
             Le64(input[40..48])))
  }

  /** Which bytes make which field. */
  lemma UnmarshalReads(input: seq<byte>)
    ensures Unmarshal(input).None? <==> |input| < 48
    ensures |input| >= 48 ==>
              var p := Unmarshal(input).value;
              && p.srcIP == input[..16] && p.dstIP == input[16..32]
              && p.srcPort == (input[32] as bv16) * 256 + input[33] as bv16
              && p.dstPort == (input[34] as bv16) * 256 + input[35] as bv16
              && p.protocol == input[36] && p.ttl == input[37]
              && (p.syn <==> input[38] == 1) && (p.ack <==> input[39] == 1)
              && p.timestamp == input[40] as int + 0x100 * (input[41] as int) + 0x1_0000 * (input[42] as int)
                                + 0x100_0000 * (input[43] as int) + 0x1_0000_0000 * (input[44] as int)
                                + 0x100_0000_0000 * (input[45] as int) + 0x1_0000_0000_0000 * (input[46] as int)
                                + 0x100_0000_0000_0000 * (input[47] as int)
  {
    if |input| >= 48 {
      Le64Value(input[40..48]);
      Be16Value(input[32], input[33]);
      Be16Value(input[34], input[35]);
    }
  }

  /** The documented layout: the record whose fields are those of `p`. */
  function Layout(p: Packet): (record: seq<byte>)
    requires |p.srcIP| == 16 && |p.dstIP| == 16
    ensures |record| == RECORD_SIZE
  {
    p.srcIP + p.dstIP + PutBe16(p.srcPort) + PutBe16(p.dstPort)
    + [p.protocol, p.ttl, Flag(p.syn), Flag(p.ack)] + PutLe64(p.timestamp)
  }

  function Flag(b: bool): byte {
    if b then 1 else 0
  }

  lemma UnmarshalOfLayout(p: Packet)
    requires |p.srcIP| == 16 && |p.dstIP| == 16
    ensures Unmarshal(Layout(p)) == Some(p)
  {
    var r := Layout(p);
    Be16RoundTrip(p.srcPort, 0, 0);
    Be16RoundTrip(p.dstPort, 0, 0);
    Le64RoundTrip(p.timestamp, r[40..48]);
    assert r[0..16] == p.srcIP;
    assert r[16..32] == p.dstIP;
    assert r[32..34] == PutBe16(p.srcPort);
    assert r[34..36] == PutBe16(p.dstPort);
    assert r[40..48] == PutLe64(p.timestamp);
  }

  /** Decoding loses only the flag bytes: it can be undone exactly when both are 0 or 1. */
  lemma LayoutOfUnmarshal(record: seq<byte>)
    requires |record| == RECORD_SIZE
    ensures Layout(Unmarshal(record).value) == record <==> record[38] <= 1 && record[39] <= 1
  {
    var p := Unmarshal(record).value;
    Be16RoundTrip(0, record[32], record[33]);
    Be16RoundTrip(0, record[34], record[35]);
    Le64RoundTrip(0, record[40..48]);
    LayoutFromParts(p, record);
    FlagIsExact(record[38]);
    FlagIsExact(record[39]);
  }

  lemma LayoutFromParts(p: Packet, record: seq<byte>)
    requires |record| == RECORD_SIZE
    requires p.srcIP == record[0..16] && p.dstIP == record[16..32]
    requires PutBe16(p.srcPort) == [record[32], record[33]] && PutBe16(p.dstPort) == [record[34], record[35]]
    requires p.protocol == record[36] && p.ttl == record[37]
    requires PutLe64(p.timestamp) == record[40..48]
    ensures Layout(p) == record <==> Flag(p.syn) == record[38] && Flag(p.ack) == record[39]
  {
    assert record == record[0..16] + record[16..32] + [record[32], record[33]] + [record[34], record[35]]
                     + [record[36], record[37], record[38], record[39]] + record[40..48];
    assert Layout(p)[38] == Flag(p.syn) && Layout(p)[39] == Flag(p.ack);
  }

  lemma FlagIsExact(b: byte)
    ensures Flag(b == 1) == b <==> b <= 1
  {
  }

  /** An endpoint as it is hashed: address bytes, then the port in network order. */
  function Endpoint(ip: Addr, port: bv16): seq<byte> {
    ip + PutBe16(port)
  }

  /** A key of the flow table. */
  datatype Key = Key(sum: bv64)

  /** The flow key: wrapping sum of the hashes of both endpoints and the protocol. */
  function FlowKey(p: Packet): Key {
    Key(KeyOf(Endpoint(p.srcIP, p.srcPort), Endpoint(p.dstIP, p.dstPort), p.protocol))
  }

  function KeyOf(src: seq<byte>, dst: seq<byte>, protocol: byte): bv64 {
    Add(Add(Fnv.Hash(src), Fnv.Hash(dst)), Fnv.Hash(PutBe16(protocol as bv16)))
  }

  method PutUint16(buffer: array<byte>, w: bv16)
    requires buffer.Length == 2
    modifies buffer
    ensures buffer[..] == PutBe16(w)
  {
    buffer[0] := ((w >> 8) & 0xff) as bv8;
    buffer[1] := (w & 0xff) as bv8;
  }

  /** `Packet.Hash`, with its one scratch buffer refilled three times. */
  method HashPacket(p: Packet) returns (key: Key)
    ensures key == FlowKey(p)
  {
    var tmp := new byte[2];

    PutUint16(tmp, p.srcPort);
    var src := p.srcIP + tmp[..];

    PutUint16(tmp, p.dstPort);
    var dst := p.dstIP + tmp[..];

    PutUint16(tmp, p.protocol as bv16);
    var proto := [] + tmp[..];
    assert proto == PutBe16(p.protocol as bv16);

    var srcSum := Fnv.HashBytes(src);
    var dstSum := Fnv.HashBytes(dst);
    var protoSum := Fnv.HashBytes(proto);
    key := Key(Add(Add(srcSum, dstSum), protoSum));
  }

  lemma KeyOfSeparates(src: seq<byte>, src': seq<byte>, dst: seq<byte>, protocol: byte)
    ensures KeyOf(src, dst, protocol) == KeyOf(src', dst, protocol) <==> Fnv.Hash(src) == Fnv.Hash(src')
  {
    var d, r := Fnv.Hash(dst), Fnv.Hash(PutBe16(protocol as bv16));
    AddCancels(Fnv.Hash(src), Fnv.Hash(src'), d);
    AddCancels(Add(Fnv.Hash(src), d), Add(Fnv.Hash(src'), d), r);
  }

  /** Between the same two endpoints, each of the 256 protocol numbers has its own key. */
  lemma ProtocolSeparatesKeys(p: Packet, q: Packet)
    requires p.srcIP == q.srcIP && p.srcPort == q.srcPort && p.dstIP == q.dstIP && p.dstPort == q.dstPort
    ensures FlowKey(p) == FlowKey(q) <==> p.protocol == q.protocol
  {
    var a, b := PutBe16(p.protocol as bv16), PutBe16(q.protocol as bv16);
    assert a == [0] + [p.protocol] + [] && b == [0] + [q.protocol] + [];
    Fnv.OneByteSeparates(Fnv.OFFSET_BASIS, [0], p.protocol, q.protocol, []);
    var e := Add(Fnv.Hash(Endpoint(p.srcIP, p.srcPort)), Fnv.Hash(Endpoint(p.dstIP, p.dstPort)));
    AddCommutes(e, Fnv.Hash(a));
    AddCommutes(e, Fnv.Hash(b));
    AddCancels(Fnv.Hash(a), Fnv.Hash(b), e);
  }

  /** Packets of one protocol that agree on one endpoint, and whose other endpoints
      may differ in one byte of address or port, share a key only if they are the same. */
  lemma EndpointByteSeparatesKeys(p: Packet, q: Packet, prefix: seq<byte>, a: byte, b: byte, suffix: seq<byte>)
    requires p.protocol == q.protocol
    requires p.dstIP == q.dstIP && p.dstPort == q.dstPort
    requires Endpoint(p.srcIP, p.srcPort) == prefix + [a] + suffix
    requires Endpoint(q.srcIP, q.srcPort) == prefix + [b] + suffix
    ensures FlowKey(p) == FlowKey(q) <==> a == b
    ensures FlowKey(Reverse(p)) == FlowKey(Reverse(q)) <==> a == b
  {
    Fnv.OneByteSeparates(Fnv.OFFSET_BASIS, prefix, a, b, suffix);
    KeyOfSeparates(Endpoint(p.srcIP, p.srcPort), Endpoint(q.srcIP, q.srcPort),
                   Endpoint(p.dstIP, p.dstPort), p.protocol);
    ReverseKeepsKey(p);
    ReverseKeepsKey(q);
  }

  /** The packet of the opposite direction, everything else unchanged. */
  function Reverse(p: Packet): Packet {
    p.(srcIP := p.dstIP, dstIP := p.srcIP, srcPort := p.dstPort, dstPort := p.srcPort)
  }

  lemma ReverseKeepsKey(p: Packet)
    ensures FlowKey(Reverse(p)) == FlowKey(p)
  {
  }
}
