/** A request and its reply, from the frames to the report: when does the tool measure
    the round trip it exists for? */
module Exchange {
  import opened Bytes
  import opened Protocols
  import opened KernelFlow
  import opened Packets
  import opened Matching
  import opened Wire

  /** Two accepted frames of which the program takes one for the answer to the other: a SYN
      and its SYN-ACK, or two UDP datagrams. */
  predicate SeenExchange(request: Skb, reply: Skb) {
    && Accepts(request) && Accepts(reply) && LooksLikeReply(request.frame, reply.frame)
    && (request.frame[23] == TCP ==> request.frame[47] & 0x10 == 0 && reply.frame[47] & 0x10 != 0)
  }

  /** An exchange on the wire. */
  predicate IsExchange(request: Skb, reply: Skb) {
    && Accepts(request) && Accepts(reply) && IsReply(request.frame, reply.frame)
    && (request.frame[23] == TCP ==>
          && request.frame[TransportOffset(request.frame) + 13] & 0x10 == 0
          && reply.frame[TransportOffset(reply.frame) + 13] & 0x10 != 0)
  }

  lemma PlainExchangesAreSeen(request: Skb, reply: Skb)
    requires IsExchange(request, reply)
    requires HeaderWords(request.frame) == 5 && HeaderWords(reply.frame) == 5
    ensures SeenExchange(request, reply)
  {
    PlainRepliesAreSeen(request.frame, reply.frame);
  }

  /** The operation user space performs for an accepted frame. */
  function FrameOp(skb: Skb, now: u64): Op
    requires Accepts(skb)
  {
    Arrival(ObservedPacket(skb.frame, now))
  }

  /** What a run leaves of flow `k`: its entry and its reports. */
  function View(ops: seq<Op>, k: Key): (Slot, seq<Report>) {
    (SlotOf(Exec(ops).table, k), ReportsOf(Exec(ops).reports, k))
  }

  /** Flow `k` before and after one operation. */
  function Seen(op: Op, k: Key, before: (Slot, seq<Report>)): (Slot, seq<Report>) {
    if op.key == k then (NextSlot(before.0, op), before.1 + SlotReport(before.0, op, k)) else before
  }

  lemma ApplySeen(l: Ledger, op: Op, k: Key)
    ensures (SlotOf(Apply(l, op).table, k), ReportsOf(Apply(l, op).reports, k))
            == Seen(op, k, (SlotOf(l.table, k), ReportsOf(l.reports, k)))
  {
    ApplySeenByFlow(l, op, k);
    NoReport(ReportsOf(l.reports, k));
  }

  lemma ViewAppend(ops: seq<Op>, op: Op, k: Key)
    ensures View(ops + [op], k) == Seen(op, k, View(ops, k))
  {
    ExecAppend(ops, op);
    ApplySeen(Exec(ops), op, k);
  }

  lemma NoReport(reports: seq<Report>)
    ensures reports + [] == reports
  {
  }

  /** Operations on other flows. */
  ghost predicate Elsewhere(ops: seq<Op>, k: Key) {
    forall i :: 0 <= i < |ops| ==> ops[i].key != k
  }

  lemma {:induction false} ViewSkips(ops: seq<Op>, others: seq<Op>, k: Key)
    requires Elsewhere(others, k)
    ensures View(ops + others, k) == View(ops, k)
    decreases |others|
  {
    if |others| == 0 {
      assert ops + others == ops;
    } else {
      var front, op := others[..|others| - 1], others[|others| - 1];
      ViewSkips(ops, front, k);
      ViewAppend(ops + front, op, k);
      assert ops + others == ops + front + [op];
    }
  }

  /** An operation, then anything on other flows. */
  lemma ViewStep(ops: seq<Op>, op: Op, others: seq<Op>, k: Key)
    requires Elsewhere(others, k)
    ensures View(ops + [op] + others, k) == Seen(op, k, View(ops, k))
  {
    ViewAppend(ops, op, k);
    ViewSkips(ops + [op], others, k);
  }

  /** What the two frames are to the matcher. */
  lemma ExchangeOps(request: Skb, reply: Skb, sent: u64, answered: u64)
    requires SeenExchange(request, reply)
    ensures var a, b := FrameOp(request, sent), FrameOp(reply, answered);
            && Tracked(a.packet.protocol) && Tracked(b.packet.protocol)
            && Opens(a.packet) && Opens(b.packet) && Closes(b.packet)
            && (request.frame[23] == TCP <==> !Closes(a.packet))
            && a.packet.timestamp == sent && b.packet.timestamp == answered
            && (a.key == b.key <==> Skew(Sender(request.frame)) == Skew(Receiver(request.frame)))
  {
    ReplySharesKey(request.frame, reply.frame, sent, answered);
  }

  /** When the next packet of a flow is reported against `since`. */
  lemma ReportedAgainst(reports: seq<Report>, s: Slot, op: Op, k: Key, since: u64)
    requires op.Receive? && Tracked(op.packet.protocol) && Closes(op.packet)
    ensures reports + SlotReport(s, op, k) == reports + [Report(k, since, op.packet, op.packet.ack)]
            <==> s == Present(since)
  {
    var r := Report(k, since, op.packet, op.packet.ack);
    if reports + SlotReport(s, op, k) == reports + [r] {
      assert (reports + SlotReport(s, op, k))[|reports|] == r;
    }
  }

  /** The last line printed says this much time. */
  predicate LastPrints(reports: seq<Report>, nanos: int) {
    |reports| > 0 && reports[|reports| - 1].Latency() == nanos
  }

  /** After any history, and whatever other flows do in between, the reply adds the report of
      the round trip in exactly these cases. With equal skews: the flow had no entry, or it
      is TCP and already had one stamped like the request. With different skews: the
      reply's flow happened to have an entry stamped like the request. */
  lemma RoundTripIsMeasuredExactlyWhen(request: Skb, reply: Skb, sent: u64, answered: u64,
                                       pre: seq<Op>, others: seq<Op>)
    requires SeenExchange(request, reply)
    requires var a, b := FrameOp(request, sent), FrameOp(reply, answered);
             Elsewhere(others, a.key) && Elsewhere(others, b.key)
    ensures var a, b := FrameOp(request, sent), FrameOp(reply, answered);
            var before, after := View(pre + [a] + others, b.key).1, View(pre + [a] + others + [b], b.key).1;
            after == before + [Report(b.key, sent, b.packet, b.packet.ack)]
            <==> if Skew(Sender(request.frame)) == Skew(Receiver(request.frame))
                 then View(pre, a.key).0 == Absent
                      || (request.frame[23] == TCP && View(pre, a.key).0 == Present(sent))
                 else View(pre, b.key).0 == Present(sent)
  {
    var a, b := FrameOp(request, sent), FrameOp(reply, answered);
    ExchangeOps(request, reply, sent, answered);
    ViewStep(pre, a, others, b.key);
    ViewAppend(pre + [a] + others, b, b.key);
    var (slot, reports) := View(pre + [a] + others, b.key);
    ReportedAgainst(reports, slot, b, b.key, sent);
  }

  /** From a table without an entry of either direction, the skews decide; if they differ,
      neither direction reports anything and both stay in the table. */
  lemma FromACleanTableTheSkewsDecide(request: Skb, reply: Skb, sent: u64, answered: u64,
                                      pre: seq<Op>, others: seq<Op>)
    requires SeenExchange(request, reply)
    requires var a, b := FrameOp(request, sent), FrameOp(reply, answered);
             && a.key !in Exec(pre).table && b.key !in Exec(pre).table
             && Elsewhere(others, a.key) && Elsewhere(others, b.key)
    ensures var a, b := FrameOp(request, sent), FrameOp(reply, answered);
            var ops := pre + [a] + others + [b];
            if Skew(Sender(request.frame)) == Skew(Receiver(request.frame))
            then a.key == b.key && LastPrints(View(ops, b.key).1, (answered as int) - (sent as int))
                 && View(ops, b.key) == (Absent, View(pre, b.key).1 + [Report(b.key, sent, b.packet, b.packet.ack)])
            else View(ops, a.key) == (Present(sent), View(pre, a.key).1)
                 && View(ops, b.key) == (Present(answered), View(pre, b.key).1)
  {
    var a, b := FrameOp(request, sent), FrameOp(reply, answered);
    ExchangeOps(request, reply, sent, answered);
    ViewStep(pre, a, others, a.key);
    ViewStep(pre, a, others, b.key);
    ViewAppend(pre + [a] + others, b, a.key);
    ViewAppend(pre + [a] + others, b, b.key);
    NoReport(View(pre, a.key).1);
    NoReport(View(pre, b.key).1);
  }

  /** With an unanswered SYN of the same flow still in the table, the skews being equal, the
      reply is measured from that older SYN. */
  lemma OlderSynIsMeasuredInstead(request: Skb, reply: Skb, sent: u64, answered: u64,
                                  pre: seq<Op>, others: seq<Op>, earlier: u64)
    requires SeenExchange(request, reply) && request.frame[23] == TCP
    requires Skew(Sender(request.frame)) == Skew(Receiver(request.frame))
    requires var a := FrameOp(request, sent);
             View(pre, a.key).0 == Present(earlier) && Elsewhere(others, a.key)
    ensures var a, b := FrameOp(request, sent), FrameOp(reply, answered);
            View(pre + [a] + others + [b], b.key)
            == (Absent, View(pre, b.key).1 + [Report(b.key, earlier, b.packet, b.packet.ack)])
            && LastPrints(View(pre + [a] + others + [b], b.key).1, (answered as int) - (earlier as int))
  {
    var a, b := FrameOp(request, sent), FrameOp(reply, answered);
    ExchangeOps(request, reply, sent, answered);
    ViewStep(pre, a, others, a.key);
    ViewAppend(pre + [a] + others, b, a.key);
    NoReport(View(pre, a.key).1);
  }

  /** With an odd datagram of the same flow left over, the skews being equal, the request is
      measured against it, and the reply opens the next measurement. */
  lemma LeftoverDatagramShiftsTheMeasurement(request: Skb, reply: Skb, sent: u64, answered: u64,
                                             pre: seq<Op>, others: seq<Op>, earlier: u64)
    requires SeenExchange(request, reply) && request.frame[23] != TCP
    requires Skew(Sender(request.frame)) == Skew(Receiver(request.frame))
    requires var a := FrameOp(request, sent);
             View(pre, a.key).0 == Present(earlier) && Elsewhere(others, a.key)
    ensures var a, b := FrameOp(request, sent), FrameOp(reply, answered);
            View(pre + [a] + others + [b], b.key)
            == (Present(answered), View(pre, b.key).1 + [Report(b.key, earlier, a.packet, a.packet.ack)])
            && LastPrints(View(pre + [a] + others + [b], b.key).1, (sent as int) - (earlier as int))
  {
    var a, b := FrameOp(request, sent), FrameOp(reply, answered);
    ExchangeOps(request, reply, sent, answered);
    ViewStep(pre, a, others, a.key);
    ViewAppend(pre + [a] + others, b, a.key);
    NoReport(View(pre + [a] + others, a.key).1);
  }

  /** With different skews and an entry of the reply's direction in the table, the reply is
      measured from that entry, whatever the request. */
  lemma OwnEntryIsMeasuredInstead(request: Skb, reply: Skb, sent: u64, answered: u64,
                                  pre: seq<Op>, others: seq<Op>, earlier: u64)
    requires SeenExchange(request, reply)
    requires Skew(Sender(request.frame)) != Skew(Receiver(request.frame))
    requires var b := FrameOp(reply, answered);
             View(pre, b.key).0 == Present(earlier) && Elsewhere(others, b.key)
    ensures var a, b := FrameOp(request, sent), FrameOp(reply, answered);
            View(pre + [a] + others + [b], b.key)
            == (Absent, View(pre, b.key).1 + [Report(b.key, earlier, b.packet, b.packet.ack)])
            && LastPrints(View(pre + [a] + others + [b], b.key).1, (answered as int) - (earlier as int))
  {
    var a, b := FrameOp(request, sent), FrameOp(reply, answered);
    ExchangeOps(request, reply, sent, answered);
    ViewStep(pre, a, others, b.key);
    ViewAppend(pre + [a] + others, b, b.key);
  }

  const SYN_FRAME := Skb(0, 0, TcpFrame(CLIENT, SERVER, 0x02))
  const SYN_ACK_FRAME := Skb(0, 0, TcpFrame(SERVER, CLIENT, 0x12))

  lemma SynAndSynAckAreAnExchange()
    ensures IsExchange(SYN_FRAME, SYN_ACK_FRAME) && SeenExchange(SYN_FRAME, SYN_ACK_FRAME)
    ensures Sender(SYN_FRAME.frame) == CLIENT && Receiver(SYN_FRAME.frame) == SERVER
  {
    HeaderNibble(5);
    PlainRepliesAreSeen(SYN_FRAME.frame, SYN_ACK_FRAME.frame);
  }

  /** A handshake on the wire between 10.0.0.1:40000 and 10.0.0.2:443 that is never reported. */
  lemma AnUnmeasuredHandshake(sent: u64, answered: u64)
    ensures IsExchange(SYN_FRAME, SYN_ACK_FRAME)
    ensures var a, b := FrameOp(SYN_FRAME, sent), FrameOp(SYN_ACK_FRAME, answered);
            View([a, b], a.key).1 == [] && View([a, b], b.key).1 == []
  {
    var a, b := FrameOp(SYN_FRAME, sent), FrameOp(SYN_ACK_FRAME, answered);
    SynAndSynAckAreAnExchange();
    ClientAndServerDiffer();
    FromACleanTableTheSkewsDecide(SYN_FRAME, SYN_ACK_FRAME, sent, answered, [], []);
    assert [] + [a] + [] + [b] == [a, b];
  }

  /** What is reported instead: when the skews differ and the reply is sent a second time,
      the time between the two replies. */
  lemma RepeatedReplyIsMeasured(request: Skb, reply: Skb, sent: u64, answered: u64, repeated: u64,
                                pre: seq<Op>, others: seq<Op>, others': seq<Op>)
    requires SeenExchange(request, reply)
    requires Skew(Sender(request.frame)) != Skew(Receiver(request.frame))
    requires var a, b := FrameOp(request, sent), FrameOp(reply, answered);
             && a.key !in Exec(pre).table && b.key !in Exec(pre).table
             && Elsewhere(others, a.key) && Elsewhere(others, b.key) && Elsewhere(others', b.key)
    ensures var a, b, c := FrameOp(request, sent), FrameOp(reply, answered), FrameOp(reply, repeated);
            View(pre + [a] + others + [b] + others' + [c], b.key)
            == (Absent, View(pre, b.key).1 + [Report(b.key, answered, c.packet, c.packet.ack)])
            && LastPrints(View(pre + [a] + others + [b] + others' + [c], b.key).1,
                          (repeated as int) - (answered as int))
  {
    var a, b, c := FrameOp(request, sent), FrameOp(reply, answered), FrameOp(reply, repeated);
    FromACleanTableTheSkewsDecide(request, reply, sent, answered, pre, others);
    ExchangeOps(request, reply, sent, repeated);
    KeyIgnoresClock(reply.frame, answered, repeated);
    ViewSkips(pre + [a] + others + [b], others', b.key);
    ViewAppend(pre + [a] + others + [b] + others', c, b.key);
  }
}
