# Flow latency and netkit monitor: a verified model

This project models two eBPF examples and proves what they compute.

The **flow latency tool** (`examples/flow`) is a traffic-control program that turns frames into
48-byte records, a ring buffer, a reader goroutine, and a consumer that matches packets of one flow
in a shared table and prints the time between them, while another goroutine prunes stale entries.
The **netkit monitor** (`examples/netkit-ipv6`) packs IPv6 headers into 37-byte events.

| file | what it is |
|---|---|
| `Bytes.dfy`, `Protocols.dfy`, `Fnv.dfy` | machine words; shared constants; 64-bit FNV-1a |
| `Packets.dfy` | record decoder and flow key |
| `KernelFlow.dfy`, `FlatOptimised.dfy` | the C program, the optimiser's output, and their agreement |
| `Wire.dfy`, `Exchange.dfy` | frame to packet; request and reply |
| `FlowTables.dfy`, `Matching.dfy`, `Runs.dfy` | clock, table and sweep; the matcher; whole runs of it |
| `Pipeline.dfy`, `PipelineSafety.dfy` | CPUs and goroutines interleaved, and what every run keeps |
| `Schedules.dfy` | the states of a run, and building runs step by step |
| `StampOrder.dfy`, `Measurements.dfy`, `Shutdown.dfy` | when records overtake one another; what a flow's records make a run print; what ends for good |
| `SweepRaces.dfy`, `SweepEnds.dfy`, `LoneSweeps.dfy` | sweeps racing with the consumer: what they lose, what they clear; sweeps alone |
| `Netkit.dfy`, `NetkitRuns.dfy` | the netkit event codec and ring; both hooks and the reader interleaved |

Programs that change state are methods and classes proved against specification functions; CPUs and
goroutines are state machines whose steps are the single accesses to shared data. The kernel's clock
reading and its output to the ring buffer are two steps, as reservation and submission are in the
netkit hooks. Clock readings, frames, ring-buffer refusals, iteration order and scheduling are inputs
of the model.

## Main results

- The optimised program and the C program return the same value and leave equal ring buffers for
  every frame, packet type, pull result and clock value (`FlatOptimised.TranslationValidation`).
- Every interleaving of consumer and pruner has the effect of handling packets and evictions one
  after the other (`Pipeline.RunsAreLinearizable`). From this follow, for every run: conservation of
  measurements, no store over a live entry, and, for a flow that lost no entry to a sweep, exactly
  its TCP handshakes or UDP pairs as printed lines (`Measurements`).
- Under a clock that never runs backwards a flow's records keep the order of their timestamps if and
  only if none is output while an earlier-stamped one that will still be output is in flight
  (`StampOrder.FlowIsInOrderIffNoneOvertakes`); then the flow's latencies are nonnegative and disjoint.
- A sweep deletes an entry that is too young exactly when the entry was stored meanwhile, or came from
  the future of the sweep's clock reading; the second cannot happen under one steady clock (`SweepRaces`).
  It ends at a mapping that is not stale, or with every entry left stored since it began (`SweepEnds`).
- A frame without IPv4 options is decoded to what the wire says exactly when its datagram holds a whole
  transport header (`Wire.PlainFramesDecodeToTheWire`); for every header length with options
  some are not (`Wire.DecodingIsFaithfulExactlyForPlainHeaders`).
- The exact cases in which a reply completes the report of its round trip, after any history
  (`Exchange.RoundTripIsMeasuredExactlyWhen`).
- Flows do not interfere, and the direction of packets with plain addresses does not matter.
- FNV-1a is reversible from its bytes, hence strings that differ in one byte never collide, nor do
  flow keys that differ in one endpoint byte or in the protocol.

## Where the code does less than it says

- The comment at `examples/flow/bytecode/flat.c:95` wants IPv4-mapped addresses. The stores at lines
  96 and 97 hit word 5 of a four-word array, so the marker lands in the destination address (bytes 20
  to 23) and on bytes 36 to 39. No record ever holds an IPv4-mapped address
  (`Wire.AddressesAreNeverMapped`). The model follows the compiled program.
- The program takes every IPv4 header for 20 bytes (`examples/flow/bytecode/flat.c:79`). Behind a header
  with options the recorded ports are option bytes (`Wire.OptionsAreTakenForPorts`). Later fragments,
  which hold no transport header, are recorded as well (`Wire.LaterFragmentsAreRecorded`).
- The program takes the frame's length for the datagram's (`examples/flow/bytecode/flat.c:130`). Padding behind
  the datagram is decoded as flags or ports (`Wire.PaddingIsTakenForFlags`, `Wire.PaddingIsTakenForPorts`).
- Because only the destination address carries the marker, a reply does not hash like its request
  with the ends exchanged. From a table without entries of the two, a round trip is measured exactly when
  two values, one of each endpoint, agree (`Exchange.FromACleanTableTheSkewsDecide`);
  `Exchange.AnUnmeasuredHandshake` is a handshake that never is. On packet values with plain addresses
  the key has no direction (`Packets.ReverseKeepsKey`).
- A leftover entry spoils the next round trip: it is measured from an older SYN
  (`Exchange.OlderSynIsMeasuredInstead`), or the request against an odd datagram
  (`Exchange.LeftoverDatagramShiftsTheMeasurement`), or the reply against an entry of its own direction
  (`Exchange.OwnEntryIsMeasuredInstead`). `Exchange.RoundTripIsMeasuredExactlyWhen` covers all histories.
- The test at `examples/flow/bytecode/flat.c:113` always holds, so IPv6 frames never produce a record,
  and UDP frames shorter than 54 bytes are dropped by the TCP length check at line 130.
- The timestamps are meant to put packets in order (`examples/flow/bytecode/flat.c:144`), but reading the
  clock and outputting the record are two helper calls in a program that runs on several CPUs. With a
  steady clock a printed latency can be negative (`StampOrder.AnOvertakenDatagramHasNegativeLatency`).
- A sweep stops at the first entry that is not stale (`examples/flow/flowtable/flowtable.go:63`), so it
  may leave stale entries behind, as in `FlowTables.AStaleEntryCanSurvive`;
  `FlowTables.SweepIsCompleteIffStaleComeFirst` says exactly when. The test is strict on whole
  milliseconds: 10.001 s, not 10 s.
- The age at `examples/flow/flowtable/flowtable.go:55` is an unsigned difference, so a stamp from after
  the sweep's clock reading counts as old. A sweep can delete an entry stamped a nanosecond after it
  read the clock (`SweepRaces.AnEntryStampedAfterTheReadingIsSwept`), or one of age 0 whose predecessor
  it saw (`SweepRaces.AFreshEntryCanBeSwept`).
- When the clock cannot be read, a sweep takes the time to be 0 and can empty the table
  (`FlowTables.FailedClockEmptiesTable`, `FlowTables.AFailedClockLosesAYoungEntry`).

## Model

| member | source | states |
|---|---|---|
| Fnv.Hasher.Write | examples/flow/packet/packet.go:87-91 | writing a slice advances the hasher's state by the slice's bytes, whatever was written before |
| Fnv.HashBytes | examples/flow/packet/packet.go:87-91 | the helper returns the FNV-1a hash of the slice from the offset basis |
| Fnv.HashIsFnv1a | examples/flow/packet/packet.go:87-91 | the hash of nothing is 14695981039346656037, and one byte more xors it into the hash and mixes |
| Fnv.MixMultiplies | examples/flow/packet/packet.go:87-91 | mixing is multiplication by 1099511628211 modulo 2^64 |
| Fnv.PublishedHashes | examples/flow/packet/packet.go:87-91 | the published FNV-1a values of "a" and "foobar" |
| Fnv.FeedIsReversible | examples/flow/packet/packet.go:87-91 | the state before hashing is recovered from the result and the bytes, for strings of any length |
| Fnv.OneByteSeparates | examples/flow/packet/packet.go:86-91 | two strings of any equal length that may differ in one place hash alike exactly when they are equal there |
| Packets.UnmarshalOfLayout | examples/flow/packet/packet.go:30-66 | decoding the documented 48-byte layout of a packet gives that packet back |
| Packets.LayoutOfUnmarshal | examples/flow/packet/packet.go:40-66 | re-encoding a decoded record gives the same bytes exactly when bytes 38 and 39 are each 0 or 1 |
| Packets.UnmarshalReads | examples/flow/packet/packet.go:40-66 | each field as its bytes of the input: addresses, ports in network order, flags that are 1, the stamp least significant byte first; nothing below 48 bytes |
| Packets.PutUint16 | examples/flow/packet/packet.go:74-80 | the scratch buffer holds the number in network order |
| Packets.HashPacket | examples/flow/packet/packet.go:69-84 | with its reused buffer, Hash is the wrapping sum of the hashes of both endpoints and the protocol |
| Packets.ProtocolSeparatesKeys | examples/flow/packet/packet.go:68-84 | between the same endpoints, keys are equal exactly when the protocols are |
| Packets.EndpointByteSeparatesKeys | examples/flow/packet/packet.go:68-84 | packets that may differ in one byte of one endpoint share a key exactly when they do not differ, for either end |
| Packets.ReverseKeepsKey | examples/flow/packet/packet.go:68-84 | exchanging the ends of a packet keeps its key |
| KernelFlow.Pipe.Output | examples/flow/bytecode/flat.c:147-149 | a record is appended, or refused with a negative result and nothing changed |
| KernelFlow.EtherType | examples/flow/bytecode/flat.c:77 | the byte-swapped EtherType is compared against the frame's bytes 12 and 13 |
| KernelFlow.SynField | examples/flow/bytecode/flat.c:139-142 | the SYN bit-field is mask 0x02 of the flag byte |
| KernelFlow.AckField | examples/flow/bytecode/flat.c:143 | the ACK bit-field is mask 0x10 of the flag byte |
| KernelFlow.FillFromIPv4 | examples/flow/bytecode/flat.c:91-100 | the overlapping stores leave exactly these 48 bytes: addresses, the marker inside the destination, protocol and TTL |
| KernelFlow.FillFromTcp | examples/flow/bytecode/flat.c:137-144 | a SYN-flagged segment completes the record |
| KernelFlow.FillFromUdp | examples/flow/bytecode/flat.c:153-159 | a datagram completes the record, with both flags 0 |
| KernelFlow.Flat | examples/flow/bytecode/flat.c:45-172 | always returns TC_ACT_OK, reads only inside the frame, and emits the record exactly under the closed condition Accepts when the ring has room, else nothing |
| KernelFlow.RecordHolds | examples/flow/bytecode/flat.c:91-156 | each byte of a record by its place in the frame, or 0, ff or flag |
| KernelFlow.RecordHoldsTheStamp | examples/flow/bytecode/flat.c:144-159 | the last eight bytes are the clock value, least significant first |
| KernelFlow.WhatIsRecorded | examples/flow/bytecode/flat.c:48-163 | test by test, in numbers: which pull results, packet types, lengths, EtherTypes, protocols and flags leave the ring unchanged, and that anything else adds one record if there is room |
| FlatOptimised.InDroppedRange | examples/flow/bytecode/flat.ll:27-31 | decrement and one unsigned comparison hold exactly for packet types 1 and 2 |
| FlatOptimised.IsIPv4Word | examples/flow/bytecode/flat.ll:54-57 | comparing the unswapped word with 8 decides EtherType 0x0800 |
| FlatOptimised.TestBit512 | examples/flow/bytecode/flat.ll:111-115 | bit 9 of the word at 46 is the SYN bit |
| FlatOptimised.Bit12 | examples/flow/bytecode/flat.ll:130-133 | bit 12 of that word is the ACK bit |
| FlatOptimised.Block32 | examples/flow/bytecode/flat.ll:74-96 | the byte-offset stores build the same header bytes as the C fields |
| FlatOptimised.Block52 | examples/flow/bytecode/flat.ll:117-134 | all of a TCP record but the timestamp |
| FlatOptimised.Block63 | examples/flow/bytecode/flat.ll:139-148 | all of a UDP record but the timestamp |
| FlatOptimised.Block69 | examples/flow/bytecode/flat.ll:153-158 | timestamp and output of the completed record |
| FlatOptimised.Flat | examples/flow/bytecode/flat.ll:17-166 | the optimised control flow, with one length check and no IPv6 branch, meets the contract of the C program |
| FlatOptimised.TranslationValidation | examples/flow/bytecode/flat.ll:17-166 | both programs, started on equal ring buffers, return 0 and leave equal ring buffers: one record more exactly for a frame that is not broadcast (1) or multicast (2), has 54 bytes, type 0800 and protocol 17, or 6 with SYN, if there is room |
| Wire.RecordDecodesToObserved | examples/flow/packet/packet.go:40-66 | for every accepted frame the decoder returns the ports and TCP flags at the program's fixed offsets, protocol, TTL and the kernel's timestamp, undamaged by the overlapping stores, and the record is the packet's layout |
| Wire.PlainFramesDecodeToTheWire | examples/flow/bytecode/flat.c:79-159 | an accepted frame without IPv4 options is decoded to the ports and flags that section 3.1 of RFC 791 places behind the header if and only if its datagram, by version, header length, total length and fragment offset, holds a whole transport header |
| Wire.DecodingIsFaithfulExactlyForPlainHeaders | examples/flow/bytecode/flat.c:79-159 | of the header lengths a correct header can have, five words is the only one for which every accepted frame whose datagram holds a transport header decodes to the wire's packet |
| Wire.OptionsAreTakenForPorts | examples/flow/bytecode/flat.c:79-156 | a concrete accepted datagram from port 40000 behind one word of options, decoded with source port 0x0101 |
| Wire.LaterFragmentsAreRecorded | examples/flow/bytecode/flat.c:78-100 | a concrete accepted frame whose fragment offset is not 0 |
| Wire.PaddingIsTakenForFlags | examples/flow/bytecode/flat.c:130-142 | a concrete accepted frame with a first TCP fragment of 28 bytes whose SYN flag is read from the padding |
| Wire.PaddingIsTakenForPorts | examples/flow/bytecode/flat.c:130-156 | a concrete accepted frame with a bare header, decoded with source port 0xaaaa from the padding |
| Wire.AddressesAreNeverMapped | examples/flow/bytecode/flat.c:91-97 | no emitted address has the IPv4-mapped form of section 2.5.5.2 of RFC 4291 |
| Wire.ReplySharesKey | examples/flow/bytecode/flat.c:91-100 | frames the program takes for request and reply share a key exactly when their endpoints have equal skews |
| Wire.PlainRepliesAreSeen | examples/flow/bytecode/flat.c:79-156 | without options on either side, a frame is the reply to another on the wire exactly when the program takes it for that and both datagrams hold a transport header |
| Wire.ClientAndServerDiffer | examples/flow/bytecode/flat.c:91-100 | two everyday endpoints whose skews differ |
| Wire.KeysOfAHandshake | examples/flow/packet/packet.go:69-84 | the numeric flow keys of a SYN and its SYN-ACK between two everyday endpoints |
| Exchange.RoundTripIsMeasuredExactlyWhen | examples/flow/packet/packet.go:93-138 | after any history and with anything on other flows in between, the reply adds the report of its round trip if and only if: with equal skews the flow had no entry, or is TCP and had one stamped like the request; with different skews the reply's flow had an entry stamped like the request |
| Exchange.FromACleanTableTheSkewsDecide | examples/flow/packet/packet.go:93-138 | if neither direction has an entry, SYN and SYN-ACK, or two datagrams, add one line that says answered - sent if the skews agree, else no report and two entries |
| Exchange.PlainExchangesAreSeen | examples/flow/bytecode/flat.c:79-156 | an exchange on the wire without IPv4 options is one the program sees |
| Exchange.OlderSynIsMeasuredInstead | examples/flow/packet/packet.go:103-125 | with an unanswered SYN still in the table, the next round trip is reported from that SYN: the line says answered - earlier |
| Exchange.LeftoverDatagramShiftsTheMeasurement | examples/flow/packet/packet.go:108-137 | with an odd datagram left over, the request is reported against it, sent - earlier, and the reply stays in the table |
| Exchange.OwnEntryIsMeasuredInstead | examples/flow/packet/packet.go:103-137 | with different skews and an entry of the reply's direction, the line says answered - earlier |
| Exchange.AnUnmeasuredHandshake | examples/flow/packet/packet.go:93-138 | a concrete accepted handshake on the wire that is not reported |
| Exchange.RepeatedReplyIsMeasured | examples/flow/packet/packet.go:115-125 | when skews differ, from such a table, a repeated reply is reported against the first reply: the line says repeated - answered |
| FlowTables.ClockIsModular | examples/flow/timer/timer.go:11-25 | the reading is 1_000_000_000 * seconds + nanoseconds modulo 2^64, exact if and only if that fits |
| FlowTables.ReadingInSeconds | examples/flow/timer/timer.go:21-24 | for 285 years after boot the reading is 1_000_000_000 * seconds + nanoseconds |
| FlowTables.ClockKeepsOrder | examples/flow/timer/timer.go:21-24 | valid timespecs are ordered as their readings are |
| FlowTables.StaleMeansOldOrFuture | examples/flow/flowtable/flowtable.go:55 | the wrapped test means an age of at least 10.001 s, or a stamp in all but the last 10.001 s of the future range |
| FlowTables.StaleAndTooYoung | examples/flow/flowtable/flowtable.go:55 | the test hits an entry younger than 10.001 s exactly when its stamp is in the future, short of the last 10.001 s of the range |
| FlowTables.FlowTable.constructor | examples/flow/flowtable/flowtable.go:17-21 | a new table is empty |
| FlowTables.FlowTable.Insert | examples/flow/flowtable/flowtable.go:24-26 | the table after a store |
| FlowTables.FlowTable.Get | examples/flow/flowtable/flowtable.go:29-37 | found flag and value, 0 when absent |
| FlowTables.FlowTable.Remove | examples/flow/flowtable/flowtable.go:40-48 | the entry is gone; the log line appears exactly when there was none |
| FlowTables.FlowTable.Prune | examples/flow/flowtable/flowtable.go:51-65 | deletes exactly the longest stale prefix of the iteration order and nothing else |
| FlowTables.FlowTable.RangeFrom | examples/flow/flowtable/flowtable.go:54-64 | the iteration with its callback deletes the longest stale prefix of its order |
| FlowTables.SweepIsCompleteIffStaleComeFirst | examples/flow/flowtable/flowtable.go:50-65 | no stale entry survives a sweep exactly when the stale entries come first in the iteration |
| FlowTables.AStaleEntryCanSurvive | examples/flow/flowtable/flowtable.go:63 | a table, an order and a reading with which a sweep deletes nothing although an entry is stale |
| FlowTables.SweepKeepsYoungEntries | examples/flow/flowtable/flowtable.go:50-65 | an entry not from the future and younger than 10.001 s survives unchanged |
| FlowTables.SweepInSeconds | examples/flow/flowtable/flowtable.go:50-65 | at a reading in seconds and nanoseconds: an entry less than 10_001_000_000 ns old stays as it is, one that goes is at least that old or stamped later, and a sweep does not stop at one that old |
| FlowTables.FailedClockEmptiesTable | examples/flow/timer/timer.go:14-19 | after a failed clock call the sweep empties the table exactly when all stamps lie in the stated range |
| FlowTables.AFailedClockLosesAYoungEntry | examples/flow/timer/timer.go:14-19 | a table with one entry stored this very moment that a sweep without a clock empties |
| Matching.CalcLatency | examples/flow/packet/packet.go:93-138 | table and printed line after one packet, by protocol number, flags and presence of an entry; the line says the packet's stamp minus the entry's |
| Matching.StoresAreConserved | examples/flow/packet/packet.go:101-137 | as multisets: stores = reported starts + live entries + evicted entries, for every run |
| Matching.TableHoldsLatestStores | examples/flow/packet/packet.go:101-111 | a live entry is the latest store of its key |
| Matching.ReportsMeasureFromLatestStore | examples/flow/packet/packet.go:115-137 | a packet adds at most one report, measured from the latest store of its flow |
| Matching.FlowsAreIndependent | examples/flow/packet/packet.go:101-137 | entry and reports of each flow are those of a two-state automaton run on that flow's operations alone |
| Runs.MeasurementsAreDisjoint | examples/flow/packet/packet.go:103-137 | with nondecreasing timestamps in a flow its latencies are nonnegative, do not overlap and fit in their span, evictions or not |
| Runs.TcpMeasuresHandshakes | examples/flow/packet/packet.go:105-125 | the lines of a TCP flow are, in order, those of the first SYN and the first ACK after it, and again from there, each saying the time between the two packets; the entry left is the first SYN not yet answered |
| Runs.TcpFlowsMeasureHandshakes | examples/flow/packet/packet.go:101-125 | the same for a flow in a run with any other flows |
| Runs.UdpMeasuresPairs | examples/flow/packet/packet.go:105-137 | a UDP flow reports packet 2i+1 against packet 2i for all i; an odd last packet stays live |
| Runs.UdpFlowsMeasurePairs | examples/flow/packet/packet.go:101-137 | in a run with any other flows, a flow of datagrams has one line per packet 2i+1, saying its stamp minus that of packet 2i, and an odd last one as entry |
| Runs.DirectionIsIrrelevant | examples/flow/packet/packet.go:69-138 | turning around any packets of a trace, or changing TTLs, changes after no step the table, and of the printed lines only the order of the two ends and the TTL |
| Pipeline.RunsAreLinearizable | examples/flow/kprobe/kprobe.go:170-226 | every interleaving agrees with its operations done one after the other, each taking effect at one step of its own |
| PipelineSafety.RecordsAreGenuine | examples/flow/bytecode/flat.c:144-162 | every record in flight or accepted is the one made at its own clock reading, is in one place only, and was accepted at most once |
| PipelineSafety.LoneCpuIsReceived | examples/flow/bytecode/flat.c:144-163 | clock reading and output in a row, refused exactly by a full ring, do to the ring what one call of the C program does |
| PipelineSafety.RecordsDecode | examples/flow/kprobe/kprobe.go:218-219 | every record the ring buffer took belongs to a clock reading of its own and decodes to the packet of the frame that reading was made for |
| PipelineSafety.RecordsStayInOrder | examples/flow/kprobe/kprobe.go:195-226 | accepted records = handed over ++ at most one held ++ buffered; processed packets are exactly the decoded prefix; the decoder never panics |
| PipelineSafety.MeasurementsAreConserved | examples/flow/kprobe/kprobe.go:170-226 | in every reachable state each store is reported or about to be, live, or lost to a sweep, and only one of these |
| PipelineSafety.StoresNeverOverwrite | examples/flow/packet/packet.go:103-110 | when the consumer is about to insert, its key is not in the table |
| PipelineSafety.ReportsMeasureFromTheLatestInsert | examples/flow/packet/packet.go:103-137 | in every interleaving the start of a report is the latest insert of its flow, even if a sweep deleted the entry meanwhile |
| PipelineSafety.FlowsStayIndependent | examples/flow/kprobe/kprobe.go:170-226 | whenever the consumer is at its select, each flow's entry and reports are those of its own automaton |
| Shutdown.NothingAfterCancel | examples/flow/kprobe/kprobe.go:213-215 | after the context is done the consumer takes, stores and prints nothing, in every interleaving |
| Shutdown.NothingAfterReadError | examples/flow/kprobe/kprobe.go:200-204 | after a read error nothing leaves the ring buffer or is handed over |
| Shutdown.LoadDecides | examples/flow/flowtable/flowtable.go:40-48 | Remove goes on to delete exactly when its Load finds the entry |
| Shutdown.MissingEntryWasSwept | examples/flow/flowtable/flowtable.go:40-48 | if the entry the consumer found is gone when it is to be removed, a sweep has deleted it in between |
| Shutdown.EachRecordIsOutputOnce | examples/flow/bytecode/flat.c:147-164 | no record is output by two steps of a run |
| Shutdown.RefusedIsNeverAccepted | examples/flow/bytecode/flat.c:147-164 | a record the ring buffer refuses never gets into it |
| Measurements.TcpRunsMeasureHandshakes | examples/flow/kprobe/kprobe.go:170-226 | in every interleaving, at the consumer's select, a TCP flow that lost no entry to a sweep has printed exactly the handshakes among its records handed over, with the time between their packets |
| Measurements.UdpRunsMeasurePairs | examples/flow/kprobe/kprobe.go:170-226 | in every interleaving, at the consumer's select, a UDP flow that lost no entry to a sweep has printed exactly the pairs among its records handed over, with the time between their packets |
| StampOrder.FlowIsInOrderIffNoneOvertakes | examples/flow/bytecode/flat.c:144-162 | under a clock that never runs backwards a flow's accepted timestamps are nondecreasing if and only if no record is output while an earlier-stamped one of the flow, still to be output, is in flight |
| StampOrder.SteadyClockGivesDisjointMeasurements | examples/flow/bytecode/flat.c:144-162 | with a steady clock and no overtaking in the flow, its printed latencies are nonnegative and disjoint in every interleaving and fit in their span |
| StampOrder.OneAtATimeGivesDisjointMeasurements | examples/flow/bytecode/flat.c:144-162 | with a steady clock, a flow of which no two records are ever in flight together has nonnegative and disjoint printed latencies |
| StampOrder.AnOvertakenDatagramHasNegativeLatency | examples/flow/bytecode/flat.c:159-162 | a run with a steady clock in which two CPUs output in the other order, ending with a negative latency printed |
| SweepRaces.SweepsAreExplained | examples/flow/flowtable/flowtable.go:54-64 | during a sweep every live entry is the latest store since it began or the only mapping of its key the sweep can see |
| SweepRaces.AYoungEntryIsSweptIffStoredMeanwhileOrFuture | examples/flow/flowtable/flowtable.go:51-64 | the entry about to be deleted is too young exactly when its latest store since the sweep began is, or there was none and its stamp exceeds the sweep's reading |
| SweepRaces.WithOneSteadyClockOnlyStoresMeanwhileAreLostYoung | examples/flow/flowtable/flowtable.go:51-64 | if the clock that kernel and user space share never runs backwards, exactly the entries stored meanwhile with a stamp that is too young are deleted too young |
| SweepRaces.AFreshEntryCanBeSwept | examples/flow/flowtable/flowtable.go:54-64 | for any entry old enough, a run under a steady clock in which a sweep sees it and then deletes its unreported successor of age 0 |
| SweepRaces.AnEntryStampedAfterTheReadingIsSwept | examples/flow/flowtable/flowtable.go:51-64 | a run under a steady clock in which a sweep sees an entry's current value, stamped after the sweep's reading, and deletes it unreported |
| SweepEnds.HowSweepsEnd | examples/flow/flowtable/flowtable.go:54-64 | in every interleaving a sweep ends at a mapping that is not stale, or with every entry that is left stored since it began: each entry there was at its start and nobody stored anew is gone |
| LoneSweeps.PruneIsALoneSweep | examples/flow/flowtable/flowtable.go:51-65 | each way Prune can go is a run of pruner steps with no other step in between |
| LoneSweeps.EveryLoneSweepIsAPrune | examples/flow/flowtable/flowtable.go:51-65 | any pruner steps after a tick, with no other step in between, delete a stale prefix of some iteration order, and exactly what Prune deletes once the sweep has ended |
| Netkit.EventRing.Reserve | examples/netkit-ipv6/bytecode/netkit_ipv6.c:47-50 | a slot at the end of the ring, of undefined contents, or null exactly when the ring is full |
| Netkit.EventRing.Submit | examples/netkit-ipv6/bytecode/netkit_ipv6.c:61 | the slot keeps its place and becomes ready with the bytes written |
| Netkit.EventRing.Read | examples/netkit-ipv6/main.go:107-112 | the next event in reservation order, or nothing while its hook is at work, later ready slots notwithstanding |
| Netkit.FillEvent | examples/netkit-ipv6/bytecode/netkit_ipv6.c:53-58 | the stores write every byte of the slot |
| Netkit.ProcessIPv6 | examples/netkit-ipv6/bytecode/netkit_ipv6.c:26-64 | always passes the packet on; exactly the IPv6 frames of at least 54 bytes with room yield one event, fully written; no reservation is left open |
| Netkit.NetkitPrimary | examples/netkit-ipv6/bytecode/netkit_ipv6.c:67-69 | the primary hook marks its events 0 |
| Netkit.NetkitPeer | examples/netkit-ipv6/bytecode/netkit_ipv6.c:72-74 | the peer hook marks its events 1 |
| Netkit.BothHooks | examples/netkit-ipv6/bytecode/netkit_ipv6.c:26-74 | both hooks return 0; a frame of 54 bytes with type 86dd that finds room adds one event of 37 bytes with the frame's header fields, byte 36 being 0 and decoded as primary at the one hook, 1 and as peer at the other; any other frame leaves the ring as it was |
| Netkit.PrintEvent | examples/netkit-ipv6/main.go:122-149 | decodes the fields to be printed, nothing when the sample is shorter than 37 bytes |
| Netkit.EventDecodesToHeader | examples/netkit-ipv6/main.go:122-149 | the decoded event is the frame's header as section 3 of RFC 8200 places it, with the hook's direction |
| NetkitRuns.EventsArriveInReservationOrder | examples/netkit-ipv6/main.go:105-114 | in every interleaving of both hooks and the reader, the i-th event delivered is whole and decodes to the header of the i-th frame that got a slot, and none is stuck once the hooks are done |
| NetkitRuns.EachReservationIsSubmittedOnce | examples/netkit-ipv6/bytecode/netkit_ipv6.c:47-61 | each slot is submitted exactly once, or not yet while its hook is at work, and nothing else is submitted |
| NetkitRuns.LoneHookIsAfterFrame | examples/netkit-ipv6/bytecode/netkit_ipv6.c:26-64 | the two steps of a hook, taken together, are what the method for the whole hook does to the ring |

## Left out

- The `float64` division and the text of the report lines; a report holds the start, the packet that ends it and which branch printed it.
- Internals of `sync.Map`, the ring buffers and channels: atomic map operations, an iteration that visits a key at most once, may show any mapping held since it began, and visits every key held without a break; queues that may refuse; an unbuffered hand-off.
- Big-endian targets: bytes are laid out as on the little-endian ones the decoders assume.
- The IPv6 stores at `examples/flow/bytecode/flat.c:117-121`: unreachable, shown as such.
- Ticker timing: a sweep may begin at any time, also after the consumer was cancelled.
- Slice capacity: a record that is too short panics by its length.
- IPv6 zones of addresses: the decoder never sets one.
- Ring-buffer sizes in bytes: capacities count records and events. A frame that is not recorded is no step of the pipeline.
- Loading, netlink, qdisc, filter and link attachment code, functional options, link-local address generation, signal handling, `ip-counter` and `trace-kills`: plumbing or single operations.
