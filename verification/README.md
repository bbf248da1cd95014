# neumo DVB core: byte streams

A Dafny model of the byte-stream machinery in `neumo/dvb-core`, and proofs about it. What the C code
does with fields and buffers that change in place is modelled by classes with the same fields and by
methods with the same loops and branches. Each method is proved against a function on values, byte by
byte or packet by packet, and the theorems are about those functions.

| files | component |
|---|---|
| `Ringbuffer.dfy`, `Spsc.dfy` | the byte ring, the packet ring on it, and the ring used by one producer and one consumer without a lock |
| `CaLink.dfy`, `CaLinkProofs.dfy`, `CaBus.dfy`, `CaSlot.dfy` | EN 50221: fragments of the link layer, the control interface, the slot state machine |
| `Framer.dfy`, `FramerBorders.dfy`, `FramerChunks.dfy` | transport packets in a stream of chunks |
| `SectionDemux.dfy`, `SectionProofs.dfy` | PSI sections from transport packets |
| `CrcTables.dfy`, `Crc.dfy`, `ShortCrc.dfy` | the two checksums |
| `BbFrames.dfy`, `BbFramesProofs.dfy` | user packets from baseband frames |
| `T2mi.dfy`, `T2miStream.dfy`, `T2miProofs.dfy`, `T2miRoundTrip.dfy`, `T2miTransport.dfy`, `T2miPlayback.dfy`, `T2miFaults.dfy` | baseband frames from T2-MI packets from transport packets |
| `Ule.dfy`, `UleDecoder.dfy`, `UleProofs.dfy` | SNDUs from transport cells (RFC 4326) |
| `RefCounts.dfy` | the reference counted tree of feeds, embedded streams and bbframes streams |
| `Zigzag.dfy`, `Peaks.dfy` | the software zigzag tuner, the spectrum peak list |
| `SectionFilter.dfy`, `SectionReads.dfy` | section filters and section reads of the demux device |

`Bytes.dfy` holds what all of them share. `dafny verify dfyconfig.toml` checks everything.

## What the code does not promise

Each of these is proved, with the exact condition.

- A message can be taken apart by `io_read` before it is complete exactly when the connection met first is
  complete only on a later slot behind an incomplete message of another connection; with one slot never
  (`CaLinkProofs.RunsOffExactlyWhen`, `CaLinkProofs.NeverRunsOffExactlyWithOneSlot`).
- The fragment loop of `io_write` gets stuck exactly for a link buffer of 2 bytes, and sends nothing below
  that (`CaLink.FragmentLoopProgress`, `CaLink.IoWrite`); an empty message never arrives
  (`CaLink.ArrivesExactlyWhenNotEmpty`).
- On the path where a driver reads whole link packets the space test is too weak exactly for link buffers
  below 512 bytes (`CaSlot.DirectReadsFitExactlyWhen`).
- A chunk border can show in what the framer passes on: the exact condition for any bytes is
  `FramerChunks.BorderMattersExactlyWhen`. Behind whole packets it is a step back over the border
  (`FramerBorders.BehindPacketsExactlyWhen`), in garbage a step back taken with the border alone or without it
  alone (`FramerChunks.ShortPacketsInGarbage`).
- A packet whose pointer field overruns its payload leaves an unnoticed hole in a section, unless it
  announces a discontinuity (`SectionProofs.SafeExactlyWhen`). Behind a packet without payload a packet delivers
  sections for a second time exactly when it adds bytes to a run that holds some and has room
  (`SectionProofs.RewindRedelivers`), and the look at the padding stays inside the buffer exactly when `secbuf`
  is not too far behind (`SectionDemux.SectionFeed.SectionNew`).
- The first data field must not have a SYNCD that points behind it (`BbFramesProofs.SyncedAfterFirstExactlyWhen`,
  `BbFramesProofs.MissedBoundary`).
- A T2-MI packet before any frame of a registered PLP, or a frame of an unregistered one, makes the reframer
  give up until the next counter gap (`T2miPlayback.ReadExactlyWhenSelected`, `T2miPlayback.LostForGood`).
- A T2-MI packet whose count does not follow is skipped on the wrong length, and the count expected is not set
  anew (`T2miFaults.CountGap`); a damaged one has been delivered when it is found out
  (`T2miFaults.DamagedPacket`).
- Which of two peaks in conflict is kept can depend on which was found first
  (`Peaks.OrderMattersExactlyWhen`).
- A ULE pointer field of 184 is accepted although it points behind the cell (`Ule.StaysInsideExactlyWhen`).
- A stream is registered under one number and taken out of the table under another, the ISI of the last header
  parsed. Its last release takes out its own entry exactly when the two are the same, and keeps the tree exactly
  when they are or the embedded stream goes as well (`RefCounts.ErasedExactlyWhenInPlace`,
  `RefCounts.ReleaseKeepsExactlyWhen`; a stream for whatever PLP, one frame, release:
  `RefCounts.UnspecifiedPlpBesideAnother`).
- Counts survive the last release of a stream exactly when nothing is left inside it
  (`RefCounts.CountsSurviveExactlyWhenEmpty`); releases in reverse order see to that (`RefCounts.NothingInside`).
- The zigzag gets back to its first position exactly with a step size other than 0
  (`Zigzag.ComesBackExactlyWhenSteps`); with 0 it never slows down (`Zigzag.SearchWithoutSteps`).
- The peak list can be overrun: by a level that begins with a full list, exactly when the first candidate that
  does anything is accepted and removes nothing (`Peaks.FullLevelStaysInsideExactlyWhen`).
- A section reader that is given an error inside a body is out of step afterwards
  (`SectionReads.DmxdevFilter.ReadError`).

Where comments and code disagree the code is followed. The discontinuity flag of the T2-MI path is read from
bit 0x08 of the adaptation field flags (`neumo/dvb-core/neumo-dvb-demux.c`), where ISO/IEC 13818-1 has 0x80;
`io_open` flushes the ring of a running slot only if it has none; a ULE cell whose pointer does not fit is said to be
dropped, but it is read again from where it points (`neumo/dvb-core/neumo-dvb-net.c`).

## Model

| member | source | states |
|---|---|---|
| `Ringbuffer.DvbRingbuffer.Free` | neumo/dvb-core/dvb_ringbuffer.c:74-92 | what is free and what is unread always add up to the size less one slot |
| `Ringbuffer.DvbRingbuffer.Avail` | neumo/dvb-core/dvb_ringbuffer.c:95-111 | counts exactly the unread bytes |
| `Ringbuffer.DvbRingbuffer.Read` | neumo/dvb-core/dvb_ringbuffer.c:191-220 | takes the oldest bytes, across the wrap, and leaves the rest in order |
| `Ringbuffer.DvbRingbuffer.Write` | neumo/dvb-core/dvb_ringbuffer.c:222-253 | appends to the unread bytes, across the wrap, and changes none of them |
| `Ringbuffer.DvbRingbuffer.PktWrite` | neumo/dvb-core/dvb_ringbuffer.c:294-306 | the packet list gains one READY packet at its end and is otherwise unchanged |
| `Ringbuffer.DvbRingbuffer.PktRead` | neumo/dvb-core/dvb_ringbuffer.c:336-359 | returns the requested slice of the payload of the packet at an index, cut at its end, wherever it wraps; -EINVAL exactly for an offset outside it |
| `Ringbuffer.DvbRingbuffer.PktNext` | neumo/dvb-core/dvb_ringbuffer.c:380-415 | returns index and length of the first READY packet after the given one, or -1 when there is none; the loop ends |
| `Ringbuffer.DvbRingbuffer.PktDispose` | neumo/dvb-core/dvb_ringbuffer.c:361-378 | marks the packet and removes exactly the longest disposed prefix; every packet that stays keeps its index |
| `Ringbuffer.DropDisposedIsLongestPrefix` | neumo/dvb-core/dvb_ringbuffer.c:365-377 | what is removed is a prefix of disposed packets, and the packet behind it is not disposed |
| `Ringbuffer.DecodeEncode` | neumo/dvb-core/dvb_ringbuffer.c:294-306 | a list of packets with 1 to 65535 bytes of payload is read back from the bytes it is stored as |
| `Ringbuffer.EncodeDecode` | neumo/dvb-core/dvb_ringbuffer.c:361-415 | bytes that decode at all are the encoding of the list they decode to, so the list is a function of array and pointers |
| `Ringbuffer.EncodeMarked` | neumo/dvb-core/dvb_ringbuffer.c:365 | marking a packet rewrites one status byte and moves no packet |
| `Spsc.StepKeeps` | neumo/dvb-core/dvb_ringbuffer.c:74-111 | every single byte copy and every single pointer store of either side, the store of 0 at the wrap included, keeps the invariant of the lock-free ring |
| `Spsc.CopyKeeps` | neumo/dvb-core/dvb_ringbuffer.c:222-253 | a byte the producer copies lies inside the array and changes no unread byte |
| `Spsc.FetchKeeps` | neumo/dvb-core/dvb_ringbuffer.c:191-220 | the byte the consumer copies is the next one the producer published and the consumer has not had |
| `Spsc.PublishKeeps` | neumo/dvb-core/dvb_ringbuffer.c:232-250 | a store to the write pointer publishes exactly the bytes copied since the last one |
| `Spsc.ReleaseKeeps` | neumo/dvb-core/dvb_ringbuffer.c:201-219 | a store to the read pointer gives back only room the consumer has copied from |
| `Spsc.ReceivedIsWhatWasGiven` | neumo/dvb-core/dvb_ringbuffer.c:191-253 | after any interleaving the consumer has received a prefix of what the producer was given, and is behind it by less than the size of the ring |
| `Spsc.FreeAndAvail` | neumo/dvb-core/dvb_ringbuffer.c:74-111 | taken on the same pointers the two functions add up to the size less one |
| `CaLink.IoWrite` | neumo/dvb-core/neumo-dvb-ca-en50221.c:1446-1542 | sends exactly the fragments of the message, or those sent before a failing one, none longer than 512 bytes or the link buffer; every error status; nothing is sent, with success reported, when the link buffer is below 2 |
| `CaLink.FragmentSizes` | neumo/dvb-core/neumo-dvb-ca-en50221.c:1488-1495 | every fragment fits the link buffer and the host's own of 512 bytes, and all but the last fill the smaller one |
| `CaLink.FragmentCount` | neumo/dvb-core/neumo-dvb-ca-en50221.c:1488-1537 | so there are as few fragments as can be |
| `CaLink.FragmentFormat` | neumo/dvb-core/neumo-dvb-ca-en50221.c:1497-1499 | connection, then 0x80 on all but the last, then data; the data together are the message |
| `CaLink.RoundTrip` | neumo/dvb-core/neumo-dvb-ca-en50221.c:1488-1697 | fragments of a non-empty message, interleaved with other connections in any way and followed by later messages: the message comes out, later ones stay, other connections stay in order |
| `CaLink.ArrivesExactlyWhenNotEmpty` | neumo/dvb-core/neumo-dvb-ca-en50221.c:1488-1537 | a message can be put together again exactly when it is not empty |
| `CaLink.FragmentLoopProgress` | neumo/dvb-core/neumo-dvb-ca-en50221.c:1488-1537 | the fragment loop advances on every remainder exactly when the link buffer has at least 3 bytes |
| `CaLink.ReadMessage` | neumo/dvb-core/neumo-dvb-ca-en50221.c:1646-1697 | the loop over one slot returns the data of the front connection up to its last fragment, cut to the room there is, takes exactly those fragments out, and runs off the end exactly when no last fragment is stored |
| `CaLink.ScanSlot` | neumo/dvb-core/neumo-dvb-ca-en50221.c:1562-1583 | the scan of one slot finds a connection exactly when its message is complete there |
| `CaLink.IoReadCondition` | neumo/dvb-core/neumo-dvb-ca-en50221.c:1546-1591 | the slot, connection and next slot chosen by the round robin search over all slots |
| `CaLink.IoRead` | neumo/dvb-core/neumo-dvb-ca-en50221.c:1602-1701 | slot, connection and message in the reply; which fragments leave the queue; every error status; all other slots unchanged |
| `CaLinkProofs.ChosenExactlyWhen` | neumo/dvb-core/neumo-dvb-ca-en50221.c:1546-1591 | the slots in turn from where the last read ended: the first fragment met decides the connection, the first slot from there on with a complete message of it is read, and the next read starts behind it; nothing else is found |
| `CaLinkProofs.RunsOffExactlyWhen` | neumo/dvb-core/neumo-dvb-ca-en50221.c:1646-1697 | io_read reaches its "ended before last_fragment" branch exactly when the first connection met is complete only on a later slot, behind an incomplete message of another connection |
| `CaLinkProofs.NeverRunsOffExactlyWithOneSlot` | neumo/dvb-core/neumo-dvb-ca-en50221.c:1546-1591 | no queues and no starting slot can lead there exactly when there is one slot |
| `CaLinkProofs.OneSlotReadsExactlyWhen` | neumo/dvb-core/neumo-dvb-ca-en50221.c:1546-1591 | with one slot a read finds something exactly when the message in front is complete |
| `CaLinkProofs.TakenAndRest` | neumo/dvb-core/neumo-dvb-ca-en50221.c:1646-1697 | what a read takes and what it leaves are what was there, for each connection and in order |
| `CaLinkProofs.PlayBack` | neumo/dvb-core/neumo-dvb-ca-en50221.c:1446-1701 | a message through io_write, its fragments stored in the ring with other connections between them, comes out of io_read behind slot and connection, cut to the caller's size; the others stay in order |
| `CaSlot.CamSlot.ReadData` | neumo/dvb-core/neumo-dvb-ca-en50221.c:637-776 | a packet is taken exactly when the ring has room for any, and a packet of 2 to link_buf_size bytes is complete; it goes in whole behind what waits, and any other outcome leaves the ring alone; which errors restart the link |
| `CaSlot.CamSlot.ReadPacket` | neumo/dvb-core/neumo-dvb-ca-en50221.c:671-747 | a packet is what was announced and then read from the registers, in that order and without an error; exactly a length that no link packet can have and a read error at the end send the slot back to link initialisation |
| `CaSlot.CamSlot.WriteData` | neumo/dvb-core/neumo-dvb-ca-en50221.c:792-910 | refuses a packet longer than the link buffer before touching the interface; otherwise every access in order up to the first that fails, the length as status exactly when none does, the interface given back, and only a write error at the end changes the slot state |
| `CaBus.StatusesThatEndIt` | neumo/dvb-core/neumo-dvb-ca-en50221.c:816-892 | which status bits end a write, and where |
| `CaSlot.CamSlot.Write` | neumo/dvb-core/neumo-dvb-ca-en50221.c:1446-1542 | io_write on the slot: no fragment is refused for its length, each is tried in turn, and the message is written exactly when all its fragments get through |
| `CaSlot.CamSlot.LinkInit` | neumo/dvb-core/neumo-dvb-ca-en50221.c:326-388 | succeeds exactly when the CAM has named a size of at least 2 in the accesses made and has agreed to the smaller one of that and 512, which is the link buffer then; the ring is untouched |
| `CaSlot.CamSlot.WaitIfStatus` | neumo/dvb-core/neumo-dvb-ca-en50221.c:278-314 | the status is looked at up to the flag, an error or the time out, at least once |
| `CaSlot.CamSlot.CheckCamstatus` | neumo/dvb-core/neumo-dvb-ca-en50221.c:228-263 | when a change of the CAM is reported and what is recorded of it; VALIDATE is entered exactly from WAITREADY by a poll that is ready and reports no change |
| `CaSlot.CamSlot.HandleCamChanges` | neumo/dvb-core/neumo-dvb-ca-en50221.c:1135-1149 | under interrupts as many turns as were counted, by polling one for each reply up to the first without a change; after any turn the slot is UNINITIALISED or NONE as the last change says; nothing waiting is lost |
| `CaSlot.CamSlot.PollForData` | neumo/dvb-core/neumo-dvb-ca-en50221.c:1260-1293 | one packet after the other, at most ten, goes behind what waits, up to the first read that gives none or to a change or the closing of the device; the slot state as the last read leaves it |
| `CaSlot.CamSlot.LinkUp` | neumo/dvb-core/neumo-dvb-ca-en50221.c:1228-1258 | RUNNING exactly when the link is negotiated, with an allocated ring and a link buffer of 2 to 512 bytes, otherwise NONE if the CAM is gone and UNINITIALISED if not; the ring is allocated once |
| `CaSlot.CamSlot.ThreadStep` | neumo/dvb-core/neumo-dvb-ca-en50221.c:1126-1297 | one pass of the state machine: the state the changes leave, and from there the step of each of the eight states with everything it depends on; nothing waiting is lost |
| `CaSlot.CamSlot.BringUp` | neumo/dvb-core/neumo-dvb-ca-en50221.c:1126-1297 | a CAM that answers everything is running after four passes, with the smaller one of the two buffers |
| `CaSlot.CamSlot.Read` | neumo/dvb-core/neumo-dvb-ca-en50221.c:1602-1701 | io_read on this slot: a reply exactly when the slot runs and the message in front is complete |
| `CaSlot.CamSlot.Run` | neumo/dvb-core/neumo-dvb-ca-en50221.c:1126-1297 | any sequence of thread passes, interrupts, reads and writes keeps RUNNING sound, and of everything stored the reads have had the front and the rest waits, for each connection |
| `CaSlot.KeepsAllExactlyWhen` | neumo/dvb-core/dvb_ringbuffer.c:222-253 | bytes stored without a look at the read pointer leave everything unread in place exactly when they fit |
| `CaSlot.DirectReadsFitExactlyWhen` | neumo/dvb-core/neumo-dvb-ca-en50221.c:637-668 | where a driver reads whole packets itself, the space test made beforehand keeps every ring from being overwritten exactly when the link buffer is at least 512 |
| `SectionDemux.SectionFeed.CopyDump` | neumo/dvb-core/neumo-dvb-demux.c:726-780 | bytes are added up to the limit of the buffer and exactly the complete sections behind the search position are delivered |
| `SectionDemux.SectionFeed.Dump` | neumo/dvb-core/neumo-dvb-demux.c:755-777 | the loop delivers all complete sections from the search position on, and only once a start has been seen |
| `SectionDemux.SectionFeed.SectionPacket` | neumo/dvb-core/neumo-dvb-demux.c:782-860 | counter, discontinuity flag, pointer field and payload of a packet decide the new run and what is delivered |
| `SectionDemux.SectionFeed.SectionNew` | neumo/dvb-core/neumo-dvb-demux.c:683-705 | what was not searched is thrown away and noted unless it was stuffing; the look at its last byte stays inside the buffer exactly when a rewind has not left `secbuf` too far behind |
| `SectionDemux.SectionFeed.PacketType` | neumo/dvb-core/neumo-dvb-demux.c:886-891 | the same with the rewind of secbufp after a packet without payload; secbufp <= tsfeedp <= 4284 is kept |
| `SectionDemux.SectionsExtend` | neumo/dvb-core/neumo-dvb-demux.c:755-777 | more bytes never change the sections found before; the search goes on where it stopped |
| `SectionDemux.FoundExactlyWhen` | neumo/dvb-core/neumo-dvb-demux.c:755-777 | something is found exactly when a section of at most 4096 bytes lies whole at the front |
| `SectionProofs.RoundTrip` | neumo/dvb-core/neumo-dvb-demux.c:683-860 | for any packetisation with consecutive counters, joined at any point, exactly the sections that begin in it are delivered, once each and in order |
| `SectionProofs.RoundTripInStep` | neumo/dvb-core/neumo-dvb-demux.c:683-860 | the same for a receiver in the middle of a section, which is delivered first; no tail is lost to the buffer limit |
| `SectionProofs.PlayBack` | neumo/dvb-core/neumo-dvb-demux.c:782-891 | the round trip on the object: raw packets in, the sections out |
| `SectionProofs.MiddlePacket` | neumo/dvb-core/neumo-dvb-demux.c:782-860 | a raw packet goes on with the section exactly when its counter follows and its adaptation field announces no discontinuity; otherwise nothing comes out until the next start |
| `SectionProofs.EmptyPacket` | neumo/dvb-core/neumo-dvb-demux.c:786-789 | a raw packet without payload, or whose adaptation field leaves none, only rewinds the search |
| `SectionProofs.SectionSafety` | neumo/dvb-core/neumo-dvb-demux.c:726-860 | every section delivered has the length it claims and is a contiguous slice of payload behind a pointer target, with consecutive counters throughout |
| `SectionProofs.SafetyFromStart` | neumo/dvb-core/neumo-dvb-demux.c:726-860 | the same for every packet sequence from a receiver that has seen no start |
| `SectionProofs.RewindRedelivers` | neumo/dvb-core/neumo-dvb-demux.c:886-891 | the packet behind one without payload delivers the sections of the run again exactly when there are any, it continues the run, it has bytes for it, and the buffer is not full; otherwise the same as without the rewind |
| `SectionProofs.SafeExactlyWhen` | neumo/dvb-core/neumo-dvb-demux.c:838-852 | streams in which only copies of one packet may point past their payload are all safe exactly when that packet does not, or announces a discontinuity |
| `SectionProofs.TrackedExactlyWhen` | neumo/dvb-core/neumo-dvb-demux.c:838-852 | after a start of a section and a packet that continues it, the bytes collected are payload without a gap exactly when the pointer field stays inside |
| `Crc.ExtendCrc32` | neumo/dvb-core/neumo-dvb-demux.c:939-945 | the table loop is bitwise division |
| `Crc.TableByteDivides` | neumo/dvb-core/neumo-dvb-demux.c:200-265 | one lookup does eight steps of division |
| `Crc.Crc32Split` | neumo/dvb-core/neumo-dvb-demux.c:939-945 | any split of a message gives the same register |
| `Crc.Crc32IsRemainder` | neumo/dvb-core/neumo-dvb-demux.c:939-945 | for messages of any length the register is the remainder schoolbook division leaves of the message followed by 32 zero bits |
| `Crc.Residue` | neumo/dvb-core/neumo-dvb-demux.c:939-945 | the register ends at 0 exactly when the last four bytes are the CRC of the bytes before them |
| `Crc.OwnCrcLeavesZero` | neumo/dvb-core/neumo-dvb-demux.c:939-945 | what a sender appends makes the receiver's register 0 |
| `Crc.ExtendCrc8` | neumo/dvb-core/neumo-dvb-demux.c:947-958 | the table loop is bitwise division, from any register |
| `Crc.Crc8Split` | neumo/dvb-core/neumo-dvb-demux.c:947-958 | any split of a message gives the same register |
| `ShortCrc.Crc8IsRemainder` | neumo/dvb-core/neumo-dvb-demux.c:947-958 | for messages of any length the register is the remainder of the message followed by 8 zero bits |
| `ShortCrc.ComputedCrc8IsRemainder` | neumo/dvb-core/neumo-dvb-demux.c:287-297 | compute_crc8, which starts from 0, gives the plain remainder |
| `Crc.HeaderModeRecovered` | neumo/dvb-core/neumo-dvb-demux.c:1115-1118 | CRC-8 xor the last BBHEADER byte is 0 or 1 exactly when that byte is the CRC with this MODE added (section 5.1.7 of EN 302 755) |
| `Crc.OwnHeaderCheck` | neumo/dvb-core/neumo-dvb-demux.c:1115-1118 | a byte the sender computed is read back as its mode |
| `CrcTables.Crc32TableOk` | neumo/dvb-core/neumo-dvb-demux.c:200-265 | every entry of crc32_table is what eight steps of division give |
| `CrcTables.Crc8TableOk` | neumo/dvb-core/neumo-dvb-demux.c:268-285 | every entry of crc8_table is what eight steps of division give |
| `BbFrames.BbframesStream.ParseBbheader` | neumo/dvb-core/neumo-dvb-demux.c:905-937 | lengths in bytes and mode of the data field that follows |
| `BbFrames.BbframesStream.OutputTsBytes` | neumo/dvb-core/neumo-dvb-demux.c:964-1060 | a piece of a data field of any size is extracted as byte by byte; NULL exactly when a checksum is wrong or padding runs into the search for the first packet |
| `BbFrames.FoldSplit` | neumo/dvb-core/neumo-dvb-demux.c:964-1060 | the pieces a data field arrives in do not matter |
| `BbFramesProofs.HemRoundTrip` | neumo/dvb-core/neumo-dvb-demux.c:964-1060 | high efficiency mode: user packets cut into data fields of any length with any padding come out, from the first boundary on, with 0x47 restored |
| `BbFramesProofs.NormalRoundTrip` | neumo/dvb-core/neumo-dvb-demux.c:964-1060 | normal mode: with exact data fields and the sender's CRC-8 the same, and no checksum is found wrong |
| `BbFramesProofs.WrongChecksum` | neumo/dvb-core/neumo-dvb-demux.c:1003-1008 | a byte that is not the checksum of the user packet before it ends the extraction, behind that packet |
| `BbFramesProofs.OutputsArePackets` | neumo/dvb-core/neumo-dvb-demux.c:964-1060 | whatever the data, what is put out are 188 bytes behind 0x47 |
| `BbFramesProofs.SyncedAfterFirstExactlyWhen` | neumo/dvb-core/neumo-dvb-demux.c:972-993 | the first data field brings a fresh extractor into step exactly when SYNCD does not point behind it |
| `BbFramesProofs.MissedBoundary` | neumo/dvb-core/neumo-dvb-demux.c:972-993 | otherwise the bytes skipped so far are held against the next frame: its first packet is begun that much too early, or data and padding are passed over, or the search goes on, or fails in the padding; every case |
| `T2miStreams.T2miStream.GetPacketHeader` | neumo/dvb-core/neumo-dvb-demux.c:1250-1315 | the 6 byte header, split anywhere: exactly its bytes are used and the new phase is the one the bytes give |
| `T2miStreams.T2miStream.GetBbheader` | neumo/dvb-core/neumo-dvb-demux.c:1068-1180 | the 13 byte sub-header, split anywhere: stream selected, mode recovered, errors counted |
| `T2miStreams.T2miStream.TakePayload` | neumo/dvb-core/neumo-dvb-demux.c:1480-1543 | payload is handed to the selected stream, or skipped when the packet is not a frame |
| `T2miStreams.T2miStream.TakeCrc` | neumo/dvb-core/neumo-dvb-demux.c:1544-1580 | the 4 byte CRC, split anywhere, and the verdict on it |
| `T2miStreams.T2miStream.Reset` | neumo/dvb-core/neumo-dvb-demux.c:478-494 | the whole state after a reset, and that registered streams are reset with it |
| `T2miStreams.T2miStream.AddPacket` | neumo/dvb-core/neumo-dvb-demux.c:1328-1588 | a transport packet does what its payload does byte by byte; none of the inconsistencies reported as BUG arises |
| `T2miProofs.OnePacket` | neumo/dvb-core/neumo-dvb-demux.c:1328-1588 | one well-formed packet (clause 5 of ETSI TS 102 773): a frame reaches its stream whole, any other type is skipped whole, and the reframer stands between packets again |
| `T2miRoundTrip.Reframing` | neumo/dvb-core/neumo-dvb-demux.c:1328-1588 | a run of packets, byte by byte, comes to the same as packet by packet |
| `T2miRoundTrip.Delivery` | neumo/dvb-core/neumo-dvb-demux.c:1328-1588 | every frame hands exactly its data field, in order, to the stream of its PLP, or for a PLP without one that was seen first to the stream under 256 |
| `T2miPlayback.FrameReaches` | neumo/dvb-core/neumo-dvb-demux.c:1137-1159 | one frame from any state: the stream of its PLP if there is one, else the one under 256 if no other PLP has been seen, else none; all others are left alone |
| `T2miRoundTrip.UserPacketsArrive` | neumo/dvb-core/neumo-dvb-demux.c:964-1588 | every stream puts out exactly the user packets it was sent; no checksum or counter error |
| `T2miTransport.Transport` | neumo/dvb-core/neumo-dvb-demux.c:1328-1588 | in-order transport packets cut at any byte positions, with pointers at the first packet that starts in them, mean the same as uncut |
| `T2miTransport.InStep` | neumo/dvb-core/neumo-dvb-demux.c:1328-1588 | the same for a reframer in the middle of a packet |
| `T2miPlayback.RoundTrip` | neumo/dvb-core/neumo-dvb-demux.c:964-1588 | both layers together, whatever precedes the first packet |
| `T2miPlayback.PlayBack` | neumo/dvb-core/neumo-dvb-demux.c:964-1588 | the round trip on the objects: raw transport packets in, user packets out of every registered stream |
| `T2miPlayback.ReadExactlyWhenSelected` | neumo/dvb-core/neumo-dvb-demux.c:1478-1486 | a well-formed packet is read to its end exactly when a stream is selected by then: its own if it is a frame, an earlier one's otherwise |
| `T2miPlayback.LostForGood` | neumo/dvb-core/neumo-dvb-demux.c:1478-1486 | there is no way out of the abandoned state but a counter gap in the transport packets |
| `T2miFaults.LostPacket` | neumo/dvb-core/neumo-dvb-demux.c:1347-1381 | a raw packet of the PID that does not follow on the last one and announces nothing makes everything start over, and exactly that is counted |
| `T2miFaults.BehindLostPacket` | neumo/dvb-core/neumo-dvb-demux.c:1366-1411 | then nothing is read up to the next start, and that from its first byte |
| `T2miFaults.NotForUs` | neumo/dvb-core/neumo-dvb-demux.c:1339-1372 | packets of other PIDs, scrambled or without payload, or not a start while one is waited for, change nothing |
| `T2miFaults.DamagedPacket` | neumo/dvb-core/neumo-dvb-demux.c:1548-1574 | a T2-MI packet with any four bytes for a CRC: its frame has been delivered, and it is counted exactly when they are wrong |
| `T2miFaults.DamagedSubHeader` | neumo/dvb-core/neumo-dvb-demux.c:1115-1127 | a sub-header whose CRC-8 fits neither mode makes everything start over |
| `T2miFaults.CountGap` | neumo/dvb-core/neumo-dvb-demux.c:1284-1289 | a header whose count does not follow: four bytes are read as a CRC and the count expected stays the same |
| `Framer.FindNextPacket` | neumo/dvb-core/neumo-dvb-demux.c:1845-1868 | the next packet start: the first sync byte, or one packet earlier if a packet could begin there |
| `Framer.DvbDemux.Swfilter` | neumo/dvb-core/neumo-dvb-demux.c:1870-1922 | packets passed on and bytes carried over by one call; tsbufp stays below the packet size; the scan ends although it may step back |
| `Framer.PassedOnArePackets` | neumo/dvb-core/neumo-dvb-demux.c:1870-1922 | whatever the bytes, 188 bytes behind 0x47 are passed on, and what is carried over begins with 0x47 |
| `Framer.ChunkIndependence` | neumo/dvb-core/neumo-dvb-demux.c:1870-1922 | garbage without sync bytes, then packets of 188 or 204 bytes: every chunking gives the same packets in the same order |
| `Framer.PlayBack` | neumo/dvb-core/neumo-dvb-demux.c:1870-1922 | the same on the object, with what is carried over at the end |
| `FramerBorders.BehindPacketsExactlyWhen` | neumo/dvb-core/neumo-dvb-demux.c:1860-1867 | whole packets and any bytes behind them, in one chunk or two: the results differ exactly when the step back crosses the border, and then by one packet |
| `FramerBorders.SomeStepAcross` | neumo/dvb-core/neumo-dvb-demux.c:1860-1867 | a packet and what follows it for which that happens |
| `FramerChunks.BorderMattersExactlyWhen` | neumo/dvb-core/neumo-dvb-demux.c:1845-1922 | any bytes, cut anywhere, behind any carry: the packets are the same in one chunk and in two exactly when the last search of the first chunk goes on the same way; what is carried over is the same anyhow |
| `FramerChunks.ShortPacketsInGarbage` | neumo/dvb-core/neumo-dvb-demux.c:1860-1867 | a border in garbage, for packets of 188 bytes, shows exactly when the second chunk does not begin with a sync byte and a step back is taken on either side |
| `FramerChunks.OneBorderLess` | neumo/dvb-core/neumo-dvb-demux.c:1870-1922 | in any sequence of chunks two can be made one without any difference exactly when that border does not show |
| `FramerChunks.SomeBorderInGarbage` | neumo/dvb-core/neumo-dvb-demux.c:1860-1867 | two chunks for which a border in garbage shows |
| `UleDecoder.DvbNetUle.TsPusi` | neumo/dvb-core/neumo-dvb-net.c:364-390 | waiting decoder: counter taken over, payload position, and that the payload is taken to end with the cell exactly when the pointer is not 184 |
| `Ule.BadCell` | neumo/dvb-core/neumo-dvb-net.c:335-356 | a cell out of sync, with the error indicator or scrambled ends the SNDU in progress |
| `Ule.MiddleCell` | neumo/dvb-core/neumo-dvb-net.c:335-418 | a cell without a start adds its 184 bytes exactly when it is in order and its counter is the next one |
| `Ule.StartCell` | neumo/dvb-core/neumo-dvb-net.c:396-489 | a cell with a start goes on with the SNDU exactly when its pointer field is the number of bytes missing and leaves room for another; otherwise that is given up and what the field points to begins |
| `Ule.NoSndu` | neumo/dvb-core/neumo-dvb-net.c:490-528 | a length below 5, fewer than two bytes or two of 0xff end the cell |
| `Ule.StaysInsideExactlyWhen` | neumo/dvb-core/neumo-dvb-net.c:368-381 | which pointer values keep the read inside the cell |
| `UleDecoder.DvbNetUle.NewTs` | neumo/dvb-core/neumo-dvb-net.c:392-488 | counter gap, pointer that disagrees with what is missing, and the start of a packed payload |
| `UleDecoder.DvbNetUle.NewPayload` | neumo/dvb-core/neumo-dvb-net.c:494-598 | length and type of an SNDU, with the type split at the end of a cell or missing |
| `UleDecoder.DvbNetUle.CheckCrc` | neumo/dvb-core/neumo-dvb-net.c:818-846 | an SNDU is delivered exactly when the CRC over length, type and body is the one it carries |
| `UleDecoder.DvbNetUle.Ule` | neumo/dvb-core/neumo-dvb-net.c:759-872 | the loop over the cells of a buffer decodes as the cells one by one |
| `UleProofs.OwnSnduPasses` | neumo/dvb-core/neumo-dvb-net.c:818-846 | an SNDU as sent passes the CRC gate |
| `UleProofs.PassesExactlyWhen` | neumo/dvb-core/neumo-dvb-net.c:818-846 | a complete SNDU passes exactly when its last four bytes are the CRC of the bytes the sender would have sent before them |
| `UleProofs.RoundTrip` | neumo/dvb-core/neumo-dvb-net.c:287-872 | SNDUs packed and padded (sections 4 and 6.2 of RFC 4326) into consecutive-counter cells decode to exactly those, in order, from any state in the middle of one |
| `UleProofs.PlayBack` | neumo/dvb-core/neumo-dvb-net.c:287-872 | the round trip on the object |
| `RefCounts.Demux.AllocateStream` | neumo/dvb-core/neumo-dvb-demux.c:2145-2331 | stream, embedded stream and feeds object found or made, one reference more on each of them, and the invariant kept |
| `RefCounts.Demux.ParseBbheader` | neumo/dvb-core/neumo-dvb-demux.c:905-909 | a parsed header overwrites the ISI of a stream, and the invariant is kept |
| `RefCounts.Demux.ReleaseBbframesStream` | neumo/dvb-core/neumo-dvb-demux.c:2400-2420 | the last reference removes the stream and what only it kept; the invariant is kept exactly when no entry is left behind, and the warning comes exactly when the embedded stream goes with an entry in its table |
| `RefCounts.Demux.AllocatePidStream` | neumo/dvb-core/neumo-dvb-demux.c:1995-2014 | an output feed takes one reference on its feeds object |
| `RefCounts.Demux.ReleasePidStream` | neumo/dvb-core/neumo-dvb-demux.c:2016-2035 | and gives it back; no feeds object is freed by it |
| `RefCounts.AllocateKeeps` | neumo/dvb-core/neumo-dvb-demux.c:2145-2309 | an acquisition keeps the invariant |
| `RefCounts.ReleaseKeeps` | neumo/dvb-core/neumo-dvb-demux.c:536-591 | a release in reverse order of acquisition of a stream still under its key, or still in use, keeps it, and touches no freed object on the way |
| `RefCounts.ErasedExactlyWhenInPlace` | neumo/dvb-core/neumo-dvb-demux.c:561-575 | the last release takes the stream's own entry out of the table exactly when its ISI is what it was registered under; otherwise the entry stays and points to what was freed |
| `RefCounts.ReleaseKeepsExactlyWhen` | neumo/dvb-core/neumo-dvb-demux.c:536-591 | a release keeps the invariant exactly when it leaves no such entry in an embedded stream that lives on |
| `RefCounts.UnspecifiedPlp` | neumo/dvb-core/neumo-dvb-demux.c:905-909 | acquire for whatever PLP, one frame, release: the embedded stream goes with an entry in its table |
| `RefCounts.UnspecifiedPlpBesideAnother` | neumo/dvb-core/neumo-dvb-demux.c:905-909 | the same beside a stream of another PLP: the entry stays behind |
| `RefCounts.NothingInside` | neumo/dvb-core/neumo-dvb-demux.c:561-575 | a stream nobody holds any more has a feeds object without outputs and without embedded streams |
| `RefCounts.PutEmbKeeps` | neumo/dvb-core/neumo-dvb-demux.c:536-553 | under the invariant an embedded stream reaching zero has no bbframes stream left, and its parent still lists it |
| `RefCounts.LeftInTable` | neumo/dvb-core/neumo-dvb-demux.c:536-575 | a stream released as the last of its embedded stream leaves the table empty exactly when it was still under its key |
| `RefCounts.Conservation` | neumo/dvb-core/neumo-dvb-demux.c:524-591 | an embedded stream's count is the sum of its bbframes streams' counts; a feeds object's count is its owner, its outputs and its embedded children |
| `RefCounts.ReleaseConservesExactlyWhen` | neumo/dvb-core/neumo-dvb-demux.c:536-591 | and after a release these sums hold exactly when no entry is left behind |
| `RefCounts.FreedExactlyWhenEmpty` | neumo/dvb-core/neumo-dvb-demux.c:561-575 | with the last reference to a stream its feeds object goes exactly when nothing is in it |
| `RefCounts.CountsSurviveExactlyWhenEmpty` | neumo/dvb-core/neumo-dvb-demux.c:561-575 | and exactly then the counts stay right |
| `RefCounts.OutOfOrderFreesTooEarly` | neumo/dvb-core/neumo-dvb-demux.c:536-575 | given back before the embedded stream inside it, a stream leaves a feeds object that is freed while still in use |
| `RefCounts.StreamInStreamArises` | neumo/dvb-core/neumo-dvb-demux.c:2145-2309 | two acquisitions lead to a state for which that is so |
| `Zigzag.Frontend.FindNext` | neumo/dvb-core/neumo-dvb-frontend.c:371-419 | the inner loop always ends, at the first position within the drift |
| `Zigzag.Frontend.Autotune` | neumo/dvb-core/neumo-dvb-frontend.c:356-452 | one attempt: what is tuned, when the iteration has come round, and that cached frequency and inversion are restored unless set_frontend fails |
| `Zigzag.Frontend.Swzigzag` | neumo/dvb-core/neumo-dvb-frontend.c:454-590 | state, position and attempts of one call, for every state, one shot or not, lock or not, and every answer of set_frontend |
| `Zigzag.EveryStepHasAnAttempt` | neumo/dvb-core/neumo-dvb-frontend.c:371-419 | every signed multiple of the step size within the drift is tried with every inversion that is tried |
| `Zigzag.EveryAttemptIsForOneStep` | neumo/dvb-core/neumo-dvb-frontend.c:371-419 | and every attempt is for exactly one such pair |
| `Zigzag.Coverage` | neumo/dvb-core/neumo-dvb-frontend.c:371-452 | in one iteration every pair is tuned exactly once, and nothing else is |
| `Zigzag.SearchWithoutLock` | neumo/dvb-core/neumo-dvb-frontend.c:547-590 | called again and again without a lock, one whole iteration lies between the retune and the slow search, and the parameters are as before |
| `Zigzag.SearchUntilLock` | neumo/dvb-core/neumo-dvb-frontend.c:454-590 | any number of calls without a lock and then one with it: tuned, the exact number of attempts, each as in the iteration, the inversion of the last one kept, and nothing tuned while the lock lasts |
| `Zigzag.ComesBackExactlyWhenSteps` | neumo/dvb-core/neumo-dvb-frontend.c:371-419 | from any other position the search gets back to the first one exactly when the step size is not 0 |
| `Zigzag.SearchWithoutSteps` | neumo/dvb-core/neumo-dvb-frontend.c:454-590 | without steps and without a lock any number of calls stays in the fast search, at one and the same frequency |
| `Peaks.NoConflictExactlyWhenApart` | neumo/dvb-core/neumo-scan.c:63-116 | is_better_than gives 0 exactly when the two do not overlap, whichever way round they are given |
| `Peaks.CompareByCounting` | neumo/dvb-core/neumo-scan.c:77-116 | the counting form computes it, and by the rules: which of the two stays |
| `Peaks.WhoStays` | neumo/dvb-core/neumo-scan.c:77-116 | a peak that splits the other stays, else the one that contains the other, else in an overlap the one with the larger SNR; the first of the two in a tie, the second if they have the same extent |
| `Peaks.OrderMattersExactlyWhen` | neumo/dvb-core/neumo-scan.c:77-116 | when it makes a difference which of two peaks is met first |
| `Peaks.ByTheRules` | neumo/dvb-core/neumo-scan.c:145-187 | a candidate is refused exactly when some peak stays against it by these rules, only peaks that give way are removed, and all of them unless it is refused |
| `Peaks.LeftIsClear` | neumo/dvb-core/neumo-scan.c:145-187 | what stays is a conflict-free part of the list; an accepted candidate conflicts with none of it, and no peak without conflict is lost |
| `Peaks.StaysClear` | neumo/dvb-core/neumo-scan.c:145-187 | whatever the candidate, the list stays free of conflicts |
| `Peaks.ScanInternal.CheckCandidateTp` | neumo/dvb-core/neumo-scan.c:118-191 | the loop that deletes while it walks computes exactly that, in place, for candidates above both thresholds |
| `Peaks.ScanInternal.ProcessCandidate` | neumo/dvb-core/neumo-scan.c:552-556 | an accepted candidate is stored, inside the list exactly when there is room for what it makes of it |
| `Peaks.ScanInternal.ScanLevel` | neumo/dvb-core/neumo-scan.c:535-560 | the list after the candidates of a level, up to the one that fills it, or is stored behind it; free of conflicts throughout |
| `Peaks.ScanInternal.ScanAll` | neumo/dvb-core/neumo-scan.c:562-571 | level after level whatever the last one returned: whether every store stays inside the list |
| `Peaks.RoomIsEnough` | neumo/dvb-core/neumo-scan.c:535-560 | a level that begins with room in the list stays inside it |
| `Peaks.FullLevelStaysInsideExactlyWhen` | neumo/dvb-core/neumo-scan.c:535-560 | one that begins with a full list stays inside it exactly when no candidate is accepted without removing a peak, before anything has changed the list |
| `SectionFilter.InvertMode` | neumo/dvb-core/neumo-dmxdev.c:1043-1049 | every mode byte is complemented |
| `SectionFilter.DemuxSectionFilter.SetFilter` | neumo/dvb-core/neumo-dmxdev.c:875-886 | byte 0 goes to 0, bytes 1 to 15 to 3 to 17, bytes 1 and 2 are not looked at |
| `SectionFilter.DemuxSectionFilter.Match` | neumo/dvb-core/neumo-dvb-demux.c:629-649 | the match loop, with the masks prepared before |
| `SectionFilter.DemuxSectionFilter.Prepare` | neumo/dvb-core/neumo-dvb-demux.c:2491-2511 | the two masks and the flag that any negative bit is set |
| `SectionFilter.AcceptsExactlyWhenMatching` | neumo/dvb-core/neumo-dvb-demux.c:629-649 | accepted exactly when every masked positive bit is equal and, if there is a masked negative bit, at least one of them differs |
| `SectionFilter.FilterSection` | neumo/dvb-core/neumo-dvb-demux.c:629-649 | the whole way from the user's filter to the verdict |
| `SectionReads.DmxdevFilter.BufferWrite` | neumo/dvb-core/neumo-dmxdev.c:81-98 | a section goes in whole or not at all |
| `SectionReads.DmxdevFilter.BufferRead` | neumo/dvb-core/neumo-dmxdev.c:100-147 | the bytes asked for or as many as there are; an error recorded empties the ring |
| `SectionReads.DmxdevFilter.SectionCallback` | neumo/dvb-core/neumo-dmxdev.c:423-465 | a section is queued behind the others, or the overflow is recorded |
| `SectionReads.DmxdevFilter.ReadSec` | neumo/dvb-core/neumo-dmxdev.c:1219-1258 | a read gives as much of one section as is asked for, and never more than is left of it; every error status |
| `SectionReads.DmxdevFilter.ReadError` | neumo/dvb-core/neumo-dmxdev.c:1219-1258 | after an error handed out the reader is still in step exactly when it was not inside a body |
| `SectionReads.ReadBack` | neumo/dvb-core/neumo-dmxdev.c:1219-1258 | reads of any sizes put together are the sections as they were written |
| `SectionReads.Interleave` | neumo/dvb-core/neumo-dmxdev.c:423-465 | sections arriving and reads of any sizes in any order: what was read and what is to come are the sections that arrived, and every read lies within one of them |

## Left out

- The `*-dvbapi.c` variants, whose modelled parts repeat the neumo versions; ioctl dispatch, properties, file operations, poll, mmap, vb2, registration of devices.
- Locks: locked regions are atomic steps. Only the byte ring is taken apart, on sequentially consistent memory and without flush or reset in between.
- Memory allocation failures, timers, delays, wait queues, statistics and debug output. A blocking wait is modelled by its outcome.
- Ring: packets without payload, which the scanning loops do not see; the variants that copy to user memory.
- EN 50221: a write to the control interface is taken to answer 0 or a negative error, as drivers report them.
- EN 50221: tuple parsing and configuration (their outcome is a parameter), a driver's own write_data and read_data except for the question of room, slot shutdown, flushing the ring on open.
- Sections: buffer flags and the CRC and filter calls behind a delivered section.
- BBFrames: user packets of other than 188 bytes in normal mode, pieces longer than the data field in normal mode, a change of mode without a reset; lengths that are not whole bytes are cut as in the code.
- T2miStreams.T2miStream.AddPacket: excludes, as `bad`, frames that change the mode of a stream or have another packet size in normal mode, and adaptation fields that leave no payload.
- T2-MI: bookkeeping of MATYPE, frame index and PLP fields, streams registered while decoding, STID packet headers, the quality of resynchronisation after corrupt input.
- ULE: extension headers, bridged frames, the MAC filter, the decoding of a cell whose pointer field is 184 beyond the fact that it is not read inside its bounds.
- Reference counts: `current_feeds` and restarting of filters, the decoder PID table, streams of the wrong type, the branches for a lost xa_cmpxchg, which the mutex rules out.
- RefCounts.Demux.ReleaseBbframesStream: is for the handle its user acquired last, in a tree that is in order; what another order of release does is stated by RefCounts.FreedExactlyWhenEmpty and RefCounts.OutOfOrderFreesTooEarly.
- Zigzag: the delay between attempts, status events, signal quality, FE_TUNE_MODE flags other than one shot; integers are unbounded.
- Peaks: running sums, noise, rising and falling kernels, how a candidate is measured; overflow of 32 bits; what a store behind the list overwrites.
- Section filters: sections shorter than the 18 bytes compared, of which the code compares what follows in the buffer; the model takes the 18 bytes as given.
- Section reads: DMX_ONESHOT and the timer.
