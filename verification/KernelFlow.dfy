/** The traffic-control program that turns a frame into a 48-byte flow record:
    what it emits in closed form, and the C program. */
module KernelFlow {
  import opened Bytes
  import opened Protocols

  const TC_ACT_OK := 0
  const PACKET_BROADCAST: bv32 := 1
  const PACKET_MULTICAST: bv32 := 2
  const ETH_P_IP: bv16 := 0x0800
  const ETH_P_IPV6: bv16 := 0x86dd
  const ETH_SIZE := 14
  const IPV4_SIZE := 20
  const IPV6_SIZE := 40
  const TCP_SIZE := 20
  const UDP_SIZE := 8

  // Field offsets of the record.
  const SRC_IP := 0
  const DST_IP := 16
  const SRC_PORT := 32
  const DST_PORT := 34
  const PROTOCOL := 36
  const TTL := 37
  const SYN := 38
  const ACK := 39
  const TS := 40

  /** What the kernel hands over: the result of pulling the data in, the packet type
      and the bytes from `data` to `data_end`. */
  datatype Skb = Skb(pullResult: int, pktType: bv32, frame: seq<byte>)

  /** The exact condition under which a record is produced. */
  predicate Accepts(skb: Skb) {
    && skb.pullResult >= 0
    && skb.pktType != PACKET_BROADCAST && skb.pktType != PACKET_MULTICAST
    && |skb.frame| >= 54
    && skb.frame[12] == 0x08 && skb.frame[13] == 0x00
    && (skb.frame[23] == UDP || (skb.frame[23] == TCP && skb.frame[47] & 0x02 != 0))
  }

  /** The record as it lies in memory, byte by byte. The address halves are not
      mirror images: only the destination address carries the bytes ff ff. */
  function Record(frame: seq<byte>, now: u64): (r: seq<byte>)
    requires |frame| >= 54
    ensures |r| == RECORD_SIZE
  {
    seq(RECORD_SIZE, i requires 0 <= i < RECORD_SIZE => RecordByte(frame, now, i))
  }

  function RecordByte(frame: seq<byte>, now: u64, i: nat): byte
    requires |frame| >= 54 && i < RECORD_SIZE
  {
    if i < SRC_PORT then HeaderByte(frame, i)
    else if i < PROTOCOL then frame[34 + (i - SRC_PORT)]
    else if i < SYN then HeaderByte(frame, i)
    else if i == SYN then (if frame[23] == TCP then 1 else 0)
    else if i == ACK then (if frame[23] == TCP && frame[47] & 0x10 != 0 then 1 else 0)
    else PutLe64(now)[i - TS]
  }

  /** The record once only the network header has been looked at. */
  function HeaderByte(frame: seq<byte>, i: nat): byte
    requires |frame| >= 34 && i < RECORD_SIZE
  {
    if 12 <= i < 16 then frame[26 + (i - 12)]
    else if 20 <= i < 22 then 0xff
    else if 28 <= i < 32 then frame[30 + (i - 28)]
    else if i == PROTOCOL then frame[23]
    else if i == TTL then frame[22]
    else 0
  }

  /** The ring buffer after the program ran once; a full ring refuses the record. */
  function Received(records: seq<seq<byte>>, capacity: nat, skb: Skb, now: u64): seq<seq<byte>> {
    if Accepts(skb) && |records| < capacity then records + [Record(skb.frame, now)] else records
  }

  /** Byte by byte: what the record holds and where in the frame it comes from. */
  lemma RecordHolds(frame: seq<byte>, now: u64)
    requires |frame| >= 54
    ensures var r := Record(frame, now);
            && |r| == 48
            && (forall i :: 0 <= i < 12 || 16 <= i < 20 || 22 <= i < 28 ==> r[i] == 0)
            && (forall i :: 12 <= i < 16 ==> r[i] == frame[i + 14])
            && r[20] == 0xff && r[21] == 0xff
            && (forall i :: 28 <= i < 32 ==> r[i] == frame[i + 2])
            && (forall i :: 32 <= i < 36 ==> r[i] == frame[i + 2])
            && r[36] == frame[23] && r[37] == frame[22]
            && r[38] == (if frame[23] == 6 then 1 else 0)
            && r[39] == (if frame[23] == 6 && frame[47] & 0x10 != 0 then 1 else 0)
  {
  }

  /** The last eight bytes are the clock value, least significant byte first. */
  lemma RecordHoldsTheStamp(frame: seq<byte>, now: u64)
    requires |frame| >= 54
    ensures var r := Record(frame, now);
            now == r[40] as int + 0x100 * (r[41] as int) + 0x1_0000 * (r[42] as int) + 0x100_0000 * (r[43] as int)
                   + 0x1_0000_0000 * (r[44] as int) + 0x100_0000_0000 * (r[45] as int)
                   + 0x1_0000_0000_0000 * (r[46] as int) + 0x100_0000_0000_0000 * (r[47] as int)
  {
    var b, r := PutLe64(now), Record(frame, now);
    Le64RoundTrip(now, b);
    Le64Value(b);
    StampBytes(frame, now);
  }

  lemma StampBytes(frame: seq<byte>, now: u64)
    requires |frame| >= 54
    ensures var b, r := PutLe64(now), Record(frame, now);
            && r[40] == b[0] && r[41] == b[1] && r[42] == b[2] && r[43] == b[3]
            && r[44] == b[4] && r[45] == b[5] && r[46] == b[6] && r[47] == b[7]
  {
  }

  /** What the ring buffer takes, test by test: nothing after a failed pull, of broadcasts (1)
      and multicasts (2), of frames shorter than 54 bytes, of other types than 0800, of other
      protocols than TCP (6) and UDP (17), and of TCP segments without SYN; one record of
      anything else if there is room. */
  lemma WhatIsRecorded(records: seq<seq<byte>>, capacity: nat, skb: Skb, now: u64)
    ensures var f, after := skb.frame, Received(records, capacity, skb, now);
            if skb.pullResult < 0 || skb.pktType == 1 || skb.pktType == 2 || |f| < 54
               || f[12] != 0x08 || f[13] != 0x00 || (f[23] != 6 && f[23] != 17) || (f[23] == 6 && f[47] & 0x02 == 0)
               || |records| >= capacity
            then after == records
            else after == records + [Record(f, now)]
  {
  }

  class Pipe {
    const capacity: nat
    var records: seq<seq<byte>>

    constructor (capacity: nat)
      ensures this.capacity == capacity && records == []
    {
      this.capacity := capacity;
      records := [];
    }

    method Output(data: seq<byte>) returns (r: int)
      modifies this
      ensures r < 0 <==> |old(records)| >= capacity
      ensures records == if r < 0 then old(records) else old(records) + [data]
    {
      if |records| < capacity {
        records := records + [data];
        r := 0;
      } else {
        r := -1;
      }
    }
  }

  method Store8(memory: array<byte>, at: nat, b: byte)
    requires at < memory.Length
    modifies memory
    ensures memory[at] == b
    ensures forall i :: 0 <= i < memory.Length && i != at ==> memory[i] == old(memory[i])
  {
    memory[at] := b;
  }

  /** `*(u16 *)(memory + at) = *(u16 *)(frame + from)`, and likewise for 32 bits. */
  method Copy16(memory: array<byte>, at: nat, frame: seq<byte>, from: nat)
    requires at + 2 <= memory.Length && from + 2 <= |frame|
    modifies memory
    ensures forall i :: 0 <= i < memory.Length ==>
                          memory[i] == if at <= i < at + 2 then frame[from + (i - at)] else old(memory[i])
  {
    var w := Le16(frame[from], frame[from + 1]);
    Le16RoundTrip(frame[from], frame[from + 1]);
    memory[at], memory[at + 1] := PutLe16(w)[0], PutLe16(w)[1];
  }

  method Copy32(memory: array<byte>, at: nat, frame: seq<byte>, from: nat)
    requires at + 4 <= memory.Length && from + 4 <= |frame|
    modifies memory
    ensures forall i :: 0 <= i < memory.Length ==>
                          memory[i] == if at <= i < at + 4 then frame[from + (i - at)] else old(memory[i])
  {
    var w := Le32(frame[from], frame[from + 1], frame[from + 2], frame[from + 3]);
    Store32(memory, at, w);
    Le32RoundTrip(frame[from], frame[from + 1], frame[from + 2], frame[from + 3]);
  }

  method Store32(memory: array<byte>, at: nat, w: bv32)
    requires at + 4 <= memory.Length
    modifies memory
    ensures forall i :: 0 <= i < memory.Length ==>
                          memory[i] == if at <= i < at + 4 then PutLe32(w)[i - at] else old(memory[i])
  {
    var b := PutLe32(w);
    memory[at], memory[at + 1], memory[at + 2], memory[at + 3] := b[0], b[1], b[2], b[3];
  }

  /** The word 0x0000ffff: two bytes ff, then two bytes 0. */
  method StoreMarker(memory: array<byte>, at: nat)
    requires at + 4 <= memory.Length
    modifies memory
    ensures forall i :: 0 <= i < memory.Length ==>
                          memory[i] == if at <= i < at + 2 then 0xff
                                       else if at + 2 <= i < at + 4 then 0 else old(memory[i])
  {
    Store32(memory, at, 0xffff);
    assert PutLe32(0xffff) == [0xff, 0xff, 0, 0];
  }

  method Store64(memory: array<byte>, at: nat, t: u64)
    requires at + 8 <= memory.Length
    modifies memory
    ensures forall i :: 0 <= i < memory.Length ==>
                          memory[i] == if at <= i < at + 8 then PutLe64(t)[i - at] else old(memory[i])
  {
    var b := PutLe64(t);
    forall i | at <= i < at + 8 {
      memory[i] := b[i - at];
    }
  }

  /** `bpf_ntohs(eth->h_proto)`. */
  method EtherType(frame: seq<byte>) returns (t: bv16)
    requires |frame| >= 14
    ensures t == ETH_P_IP <==> frame[12] == 0x08 && frame[13] == 0x00
    ensures t == ETH_P_IPV6 <==> frame[12] == 0x86 && frame[13] == 0xdd
  {
    t := Swap16(Le16(frame[12], frame[13]));
  }

  /** The one-bit fields `syn` and `ack` of the TCP header's flag byte. */
  method SynField(flags: byte) returns (bit: byte)
    ensures bit == if flags & 0x02 != 0 then 1 else 0
  {
    bit := (flags >> 1) & 1;
  }

  method AckField(flags: byte) returns (bit: byte)
    ensures bit == if flags & 0x10 != 0 then 1 else 0
  {
    bit := (flags >> 4) & 1;
  }

  /** The stores of the IPv4 branch, in program order: word 5 of the destination address
      writes bytes 36 to 39, of which 36 and 37 are then replaced. */
  method FillFromIPv4(pkt: array<byte>, data: seq<byte>, ip: nat)
    requires pkt.Length == RECORD_SIZE && |data| >= 34 && ip == ETH_SIZE
    requires forall i :: 0 <= i < RECORD_SIZE ==> pkt[i] == 0
    modifies pkt
    ensures forall i :: 0 <= i < RECORD_SIZE ==> pkt[i] == HeaderByte(data, i)
  {
    Copy32(pkt, SRC_IP + 4 * 3, data, ip + 12);
    Copy32(pkt, DST_IP + 4 * 3, data, ip + 16);

    // Word 5 of a four-word address lies in the field after it.
    StoreMarker(pkt, SRC_IP + 4 * 5);
    StoreMarker(pkt, DST_IP + 4 * 5);

    Store8(pkt, PROTOCOL, data[ip + 9]);
    Store8(pkt, TTL, data[ip + 8]);
  }

  /** The stores of a SYN-flagged TCP segment. */
  method FillFromTcp(pkt: array<byte>, data: seq<byte>, tcp: nat, now: u64)
    requires pkt.Length == RECORD_SIZE && |data| >= 54 && tcp == ETH_SIZE + IPV4_SIZE
    requires data[23] == TCP && data[47] & 0x02 != 0
    requires forall i :: 0 <= i < RECORD_SIZE ==> pkt[i] == HeaderByte(data, i)
    modifies pkt
    ensures pkt[..] == Record(data, now)
  {
    Copy16(pkt, SRC_PORT, data, tcp);
    Copy16(pkt, DST_PORT, data, tcp + 2);
    var syn := SynField(data[tcp + 13]);
    Store8(pkt, SYN, syn);
    var ack := AckField(data[tcp + 13]);
    Store8(pkt, ACK, ack);
    Store64(pkt, TS, now);
  }

  /** The stores of a UDP datagram: the flags keep the zeros written before. */
  method FillFromUdp(pkt: array<byte>, data: seq<byte>, udp: nat, now: u64)
    requires pkt.Length == RECORD_SIZE && |data| >= 54 && udp == ETH_SIZE + IPV4_SIZE
    requires data[23] == UDP
    requires forall i :: 0 <= i < RECORD_SIZE ==> pkt[i] == HeaderByte(data, i)
    modifies pkt
    ensures pkt[..] == Record(data, now)
  {
    Copy16(pkt, SRC_PORT, data, udp);
    Copy16(pkt, DST_PORT, data, udp + 2);
    Store64(pkt, TS, now);
  }

  /** The C program on a little-endian target. `head` is the offset of the frame's first
      byte and `tail` of the byte after its last. */
  method Flat(skb: Skb, now: u64, pipe: Pipe) returns (verdict: int)
    modifies pipe
    ensures verdict == TC_ACT_OK
    ensures pipe.records == Received(old(pipe.records), pipe.capacity, skb, now)
  {
    if skb.pullResult < 0 {
      return TC_ACT_OK;
    }

    if skb.pktType == PACKET_BROADCAST || skb.pktType == PACKET_MULTICAST {
      return TC_ACT_OK;
    }

    var data := skb.frame;
    var head, tail := 0, |data|;

    if head + ETH_SIZE > tail {
      return TC_ACT_OK;
    }

    var pkt := new byte[RECORD_SIZE](_ => 0);
    var offset := 0;

    var etherType := EtherType(data);
    if etherType == ETH_P_IP {
      offset := ETH_SIZE + IPV4_SIZE;

      if head + offset > tail {
        return TC_ACT_OK;
      }

      var ip := head + ETH_SIZE;

      if data[ip + 9] != TCP && data[ip + 9] != UDP {
        return TC_ACT_OK;
      }

      FillFromIPv4(pkt, data, ip);
    } else if etherType == ETH_P_IPV6 {
      offset := ETH_SIZE + IPV6_SIZE;

      if head + offset > tail {
        return TC_ACT_OK;
      }

      var nextHeader := data[head + ETH_SIZE + 6];
      if nextHeader != TCP || nextHeader != UDP {
        return TC_ACT_OK;
      }
      assert false; // the test above always holds: nothing below runs for IPv6
    } else {
      return TC_ACT_OK;
    }

    if head + offset + TCP_SIZE > tail || head + offset + UDP_SIZE > tail {
      return TC_ACT_OK;
    }

    if pkt[PROTOCOL] == TCP {
      var syn := SynField(data[head + offset + 13]);

      if syn != 0 {
        FillFromTcp(pkt, data, head + offset, now);

        var r := pipe.Output(pkt[..]);
        if r < 0 {
          return TC_ACT_OK;
        }
      }
    } else if pkt[PROTOCOL] == UDP {
      FillFromUdp(pkt, data, head + offset, now);

      var r := pipe.Output(pkt[..]);
      if r < 0 {
        return TC_ACT_OK;
      }
    }

    return 0;
  }
}
