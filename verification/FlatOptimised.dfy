/** What the optimiser made of the flow program: its basic blocks, with loads and stores
    at byte offsets. Numbers in the comments are the block labels of the listing. */
module FlatOptimised {
  import opened Bytes
  import opened Protocols
  import opened KernelFlow

  /** `add i32 -1` and one unsigned comparison stand for two equality tests. */
  method InDroppedRange(pktType: bv32) returns (dropped: bool)
    ensures dropped <==> pktType == 1 || pktType == 2
  {
    var r9 := pktType - 1;
    dropped := r9 < 2;
  }

  /** `icmp eq i16 %24, 8`: the byte swap of the C program folded into the constant. */
  method IsIPv4Word(frame: seq<byte>) returns (equal: bool)
    requires |frame| >= 14
    ensures equal <==> frame[12] == 0x08 && frame[13] == 0x00
  {
    var r24 := Le16(frame[12], frame[13]);
    equal := r24 == 8;
  }

  /** Block 47: the SYN bit as bit 9 of the word at offset 46. */
  method TestBit512(frame: seq<byte>) returns (r49: bv16, clear: bool)
    requires |frame| >= 48
    ensures r49 == Le16(frame[46], frame[47])
    ensures clear <==> frame[47] & 0x02 == 0
  {
    r49 := Le16(frame[46], frame[47]);
    var r50 := r49 & 512;
    clear := r50 == 0;
  }

  /** `lshr i16 %49, 12`, truncation and `and i8 1`: the ACK bit. */
  method Bit12(low: byte, flags: byte) returns (r62: byte)
    ensures r62 == if flags & 0x10 != 0 then 1 else 0
  {
    var r60 := Le16(low, flags) >> 12;
    var r61 := (r60 & 0xff) as bv8;
    r62 := r61 & 1;
  }

  /** Block 32. */
  method Block32(pkt: array<byte>, frame: seq<byte>, r31: byte)
    requires pkt.Length == RECORD_SIZE && |frame| >= 34 && r31 == frame[23]
    requires forall i :: 0 <= i < RECORD_SIZE ==> pkt[i] == 0
    modifies pkt
    ensures forall i :: 0 <= i < RECORD_SIZE ==> pkt[i] == HeaderByte(frame, i)
  {
    Copy32(pkt, 12, frame, 26);
    Copy32(pkt, 28, frame, 30);
    StoreMarker(pkt, 20);
    StoreMarker(pkt, 36);
    Store8(pkt, 36, r31);
    Store8(pkt, 37, frame[22]);
  }

  /** Blocks 52 and 63 leave only the timestamp to block 69. */
  ghost predicate AllButTimestamp(pkt: seq<byte>, frame: seq<byte>, now: u64)
    requires |frame| >= 54
  {
    && |pkt| == RECORD_SIZE
    && forall i :: 0 <= i < TS ==> pkt[i] == RecordByte(frame, now, i)
  }

  method Block52(pkt: array<byte>, frame: seq<byte>, ghost now: u64)
    requires pkt.Length == RECORD_SIZE && |frame| >= 54 && frame[23] == 6
    requires forall i :: 0 <= i < RECORD_SIZE ==> pkt[i] == HeaderByte(frame, i)
    modifies pkt
    ensures AllButTimestamp(pkt[..], frame, now)
  {
    Copy16(pkt, 32, frame, 34);
    Copy16(pkt, 34, frame, 36);
    Store8(pkt, 38, 1);
    var r62 := Bit12(frame[46], frame[47]);
    Store8(pkt, 39, r62);
  }

  method Block63(pkt: array<byte>, frame: seq<byte>, ghost now: u64)
    requires pkt.Length == RECORD_SIZE && |frame| >= 54 && frame[23] == 17
    requires forall i :: 0 <= i < RECORD_SIZE ==> pkt[i] == HeaderByte(frame, i)
    modifies pkt
    ensures AllButTimestamp(pkt[..], frame, now)
  {
    Copy16(pkt, 32, frame, 34);
    Copy16(pkt, 34, frame, 36);
  }

  method Block69(pkt: array<byte>, frame: seq<byte>, now: u64, pipe: Pipe)
    requires |frame| >= 54 && AllButTimestamp(pkt[..], frame, now)
    modifies pkt, pipe
    ensures pipe.records == if |old(pipe.records)| < pipe.capacity then old(pipe.records) + [Record(frame, now)]
                            else old(pipe.records)
  {
    Store64(pkt, 40, now);
    assert pkt[..] == Record(frame, now);
    var r72 := pipe.Output(pkt[..]);
  }

  /** The optimised function; breaking out of a labelled block is a branch to that label.
      There is no IPv6 branch, and the two transport length checks are one. */
  method Flat(skb: Skb, now: u64, pipe: Pipe) returns (verdict: int)
    modifies pipe
    ensures verdict == TC_ACT_OK
    ensures pipe.records == Received(old(pipe.records), pipe.capacity, skb, now)
  {
    label L74: {
      var r4 := skb.pullResult;
      if r4 < 0 {
        break L74;
      }

      var dropped := InDroppedRange(skb.pktType);
      if dropped {
        break L74;
      }

      var frame := skb.frame;
      var r15, r19 := 0, |frame|;
      if r15 + 14 > r19 {
        break L74;
      }

      label L73: {
        var r2 := new byte[48](_ => 0);
        var ipv4 := IsIPv4Word(frame);
        if !ipv4 {
          break L73;
        }

        if r15 + 34 > r19 {
          break L73;
        }

        var r31 := frame[r15 + 23];
        if r31 != 6 && r31 != 17 {
          break L73;
        }

        Block32(r2, frame, r31);
        if r15 + 54 > r19 {
          break L73;
        }

        if r31 == 6 {
          var _, clear := TestBit512(frame);
          if clear {
            break L73;
          }
          Block52(r2, frame, now);
        } else {
          Block63(r2, frame, now);
        }

        Block69(r2, frame, now, pipe);
      }
    }
    return 0;
  }

  /** Both programs, started on equal ring buffers, return 0 and leave the ring buffers
      equal, byte for byte, for every frame and clock value: with one more record, of what is
      neither broadcast nor multicast and is a UDP datagram or TCP SYN over IPv4 of at least
      54 bytes, and unchanged by anything else and when full. */
  method TranslationValidation(skb: Skb, now: u64, source: Pipe, optimised: Pipe)
      returns (sourceVerdict: int, optimisedVerdict: int)
    requires source != optimised
    requires source.capacity == optimised.capacity && source.records == optimised.records
    modifies source, optimised
    ensures sourceVerdict == optimisedVerdict == 0
    ensures source.records == optimised.records
    ensures var f := skb.frame;
            if skb.pullResult < 0 || skb.pktType == 1 || skb.pktType == 2 || |f| < 54
               || f[12] != 0x08 || f[13] != 0x00 || (f[23] != 6 && f[23] != 17) || (f[23] == 6 && f[47] & 0x02 == 0)
               || |old(source.records)| >= source.capacity
            then source.records == old(source.records)
            else source.records == old(source.records) + [Record(f, now)]
  {
    WhatIsRecorded(source.records, source.capacity, skb, now);
    sourceVerdict := KernelFlow.Flat(skb, now, source);
    optimisedVerdict := Flat(skb, now, optimised);
  }
}
