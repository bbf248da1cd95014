/**
 * One CAM slot of neumo-dvb-ca-en50221.c: the state machine of the monitoring thread, link
 * initialisation, and reading link packets through the control registers into the slot's ring.
 *
 * Every reply of the hardware is arbitrary: a register read gives a byte or an error, a write 0 or an
 * error, and either may depend on everything that happened before.
 */
module CaSlot {
  import opened Bytes
  import opened Ringbuffer
  import opened CaLink
  import opened CaLinkProofs
  import opened CaBus

  const RX_BUFFER_SIZE := 65535
  const MAX_RX_PACKETS_PER_ITERATION := 10

  datatype SlotState = NONE | UNINITIALISED | RUNNING | INVALID | WAITREADY | VALIDATE | WAITFR | LINKINIT

  /** What poll_slot_status reports. */
  datatype Poll = Poll(present: bool, changed: bool, ready: bool)

  /** A poll reports a change to a slot that had a CAM or not. */
  predicate Reports(poll: Poll, present: bool) {
    poll.changed || poll.present != present
  }

  // A driver may read whole packets itself, of up to the host's own link buffer size.

  /** The free space test of read_data. */
  predicate HasRoom(free: int, linkBufSize: int) {
    free >= linkBufSize + PKTHDRSIZE
  }

  /** How far `k` is behind `w` in a ring of `n` bytes. */
  function Behind(w: nat, k: nat, n: nat): nat
    requires w < n && k < n
  {
    if k >= w then k - w else k + n - w
  }

  /** dvb_ringbuffer_write without a look at the read pointer: `bytes` from `w` on, around the end. */
  function Stored(d: seq<Byte>, w: nat, bytes: seq<Byte>): (d': seq<Byte>)
    requires w < |d| && |bytes| <= |d|
    ensures |d'| == |d|
  {
    seq(|d|, k requires 0 <= k < |d| => if Behind(w, k, |d|) < |bytes| then bytes[Behind(w, k, |d|)] else d[k])
  }

  /** Everything unread before and the new bytes are unread now. */
  predicate KeepsAll(d: seq<Byte>, r: nat, w: nat, bytes: seq<Byte>)
    requires r < |d| && w < |d| && |bytes| < |d|
  {
    Unread(Stored(d, w, bytes), r, Wrap(w + |bytes|, |d|)) == Unread(d, r, w) + bytes
  }

  /** A ring that is filled up overwrites what is unread. */
  lemma KeepsAllExactlyWhen(d: seq<Byte>, r: nat, w: nat, bytes: seq<Byte>)
    requires r < |d| && w < |d| && |bytes| < |d|
    ensures KeepsAll(d, r, w, bytes) <==> |bytes| <= |d| - 1 - |Unread(d, r, w)|
  {
    var q, n := Unread(d, r, w), |d|;
    if |q| + |bytes| < n {
      var after := Unread(Stored(d, w, bytes), r, Wrap(w + |bytes|, n));
      assert |after| == |q| + |bytes|;
      forall k | 0 <= k < |after| ensures after[k] == (q + bytes)[k] {
        UnreadAt(Stored(d, w, bytes), r, Wrap(w + |bytes|, n), k);
        if k < |q| { UnreadAt(d, r, w, k); }
      }
    }
  }

  /** The space test was met before a packet that a driver has read itself. */
  predicate DirectRead(d: seq<Byte>, r: nat, w: nat, linkBufSize: int, packet: seq<Byte>) {
    && |d| == RX_BUFFER_SIZE && r < |d| && w < |d| && 0 < |packet| <= HOST_LINK_BUF_SIZE
    && HasRoom(|d| - 1 - |Unread(d, r, w)|, linkBufSize)
  }

  /** No packet overwrites what is unread exactly when the negotiated size is no smaller than the host's own. */
  lemma DirectReadsFitExactlyWhen(linkBufSize: int)
    ensures (forall d, r: nat, w: nat, packet :: DirectRead(d, r, w, linkBufSize, packet) ==>
                                                 KeepsAll(d, r, w, Block(Packet(false, packet))))
            <==> linkBufSize >= HOST_LINK_BUF_SIZE
  {
    forall d, r: nat, w: nat, packet | DirectRead(d, r, w, linkBufSize, packet)
      ensures KeepsAll(d, r, w, Block(Packet(false, packet))) <==>
              PKTHDRSIZE + |packet| <= RX_BUFFER_SIZE - 1 - |Unread(d, r, w)|
    {
      KeepsAllExactlyWhen(d, r, w, Block(Packet(false, packet)));
    }
    if linkBufSize < HOST_LINK_BUF_SIZE { Overwritten(linkBufSize); }
  }

  /** With a smaller link buffer: a ring with just the room asked for, and a packet of the host's size. */
  lemma Overwritten(linkBufSize: int)
    requires linkBufSize < HOST_LINK_BUF_SIZE
    ensures exists d, r: nat, w: nat, packet ::
              DirectRead(d, r, w, linkBufSize, packet) && !KeepsAll(d, r, w, Block(Packet(false, packet)))
  {
    var d: seq<Byte> := seq(RX_BUFFER_SIZE, _ => 0);
    var packet: seq<Byte> := seq(HOST_LINK_BUF_SIZE, _ => 0);
    var w := RX_BUFFER_SIZE - 1 - if linkBufSize < 0 then PKTHDRSIZE else linkBufSize + PKTHDRSIZE;
    KeepsAllExactlyWhen(d, 0, w, Block(Packet(false, packet)));
    assert DirectRead(d, 0, w, linkBufSize, packet);
  }

  /** Whether the slot has a CAM before poll `i`. */
  predicate Before(polls: seq<Poll>, present: bool, i: nat)
    requires i <= |polls|
  {
    if i == 0 then present else polls[i - 1].present
  }

  predicate AllReport(polls: seq<Poll>, present: bool, n: nat)
    requires n <= |polls|
  {
    forall i :: 0 <= i < n ==> Reports(polls[i], Before(polls, present, i))
  }

  /**
   * What reading until there is no more comes to: one packet after the other behind what waits, at
   * most ten, up to the first read that gives none, or to where it was `stopped`.
   */
  ghost predicate ReadOut(logs: seq<seq<Access>>, limit: int, was: seq<Fragment>, now: seq<Fragment>, stopped: bool) {
    && 1 <= |logs| <= MAX_RX_PACKETS_PER_ITERATION
    && (forall i :: 0 <= i < |logs| - 1 ==> Admissible(logs[i], limit))
    && var n := if Admissible(logs[|logs| - 1], limit) then |logs| else |logs| - 1;
       && was <= now && |now| == |was| + n
       && (forall i :: 0 <= i < n ==> WholeRead(logs[i], now[|was| + i]))
       && (n == |logs| ==> n == MAX_RX_PACKETS_PER_ITERATION || stopped)
  }

  /** The steps that leave the registers alone. */
  lemma QuietSteps(from: SlotState, to: SlotState, pass: Pass, irqCamchange: bool, open: bool, linkBufSize: int, d: Dealings)
    requires Follows(from, to, pass, irqCamchange, open, linkBufSize, d)
    ensures from in {NONE, INVALID} ==> to == from && d == Silent
    ensures from == UNINITIALISED ==> to == WAITREADY && d == Silent
    ensures from == WAITREADY ==> to == (if pass.timedOut then INVALID else WAITREADY) && d == Silent
    ensures from == VALIDATE && !pass.attributesOk ==>
              to == (if !irqCamchange && !pass.last.present then NONE else INVALID) && d == Silent
    ensures from == VALIDATE && pass.attributesOk && !pass.configOk ==> to == INVALID && d == Silent
    ensures from == WAITFR && pass.timedOut ==> to == INVALID && d == Silent
    ensures from == RUNNING && !open ==> to == RUNNING && d == Silent
  {
  }

  /** And the others. */
  lemma BusySteps(from: SlotState, to: SlotState, pass: Pass, irqCamchange: bool, open: bool, linkBufSize: int, d: Dealings)
    requires Follows(from, to, pass, irqCamchange, open, linkBufSize, d)
    ensures from == VALIDATE && pass.attributesOk && pass.configOk ==>
              || (to == WAITFR && d == One(Put(Command, 8, 0)))
              || (to == INVALID && d.One? && d.access.Put? && d.access == Put(Command, 8, d.access.status) && d.access.status != 0)
    ensures from == WAITFR && !pass.timedOut ==>
              && d.One? && d.access.Got? && d.access.reg == Status
              && to == if Bit(d.access.value, 0x40) then LINKINIT else WAITFR
    ensures from == LINKINIT ==>
              && d.Linking?
              && if exists n :: Negotiated(d.asking, d.offer, n) then
                   to == RUNNING && Negotiated(d.asking, d.offer, d.size) && linkBufSize == if d.size < 512 then d.size else 512
                 else to == if !irqCamchange && !pass.last.present then NONE else UNINITIALISED
    ensures from == RUNNING && open ==> d.Reads? && d.logs != [] && to == AfterRead(d.logs[|d.logs| - 1], linkBufSize)
  {
    hide Bit, Negotiated;
  }

  lemma StoppedByChange(logs: seq<seq<Access>>, limit: int, was: seq<Fragment>, now: seq<Fragment>, a: bool, b: bool)
    requires ReadOut(logs, limit, was, now, a) && (a ==> b)
    ensures logs != [] && was <= now && ReadOut(logs, limit, was, now, b)
  {
  }

  /** The slot state behind a read. */
  function AfterRead(log: seq<Access>, limit: int): SlotState {
    if BadLength(log, limit) || FailedRead(log) then LINKINIT else RUNNING
  }

  /** What the thread finds besides the registers: time, attributes, configuration, and a last poll. */
  datatype Pass = Pass(timedOut: bool, attributesOk: bool, configOk: bool, last: Poll)

  /** The step of the state machine, once the changes are dealt with. */
  ghost predicate Follows(
    from: SlotState, to: SlotState, pass: Pass, irqCamchange: bool, open: bool, linkBufSize: int, d: Dealings)
  {
    var gone := !irqCamchange && !pass.last.present;
    match from
    case NONE => to == NONE && d.Silent?
    case INVALID => to == INVALID && d.Silent?
    case UNINITIALISED => to == WAITREADY && d.Silent?
    case WAITREADY => to == (if pass.timedOut then INVALID else WAITREADY) && d.Silent?
    case VALIDATE =>
      if !pass.attributesOk then to == (if gone then NONE else INVALID) && d.Silent?
      else if !pass.configOk then to == INVALID && d.Silent?
      else d.One? && d.access.Put? && d.access == Put(Command, 8, d.access.status)
           && to == if d.access.status == 0 then WAITFR else INVALID
    case WAITFR =>
      if pass.timedOut then to == INVALID && d.Silent?
      else d.One? && d.access.Got? && d.access == Got(Status, d.access.value)
           && to == if Bit(d.access.value, 0x40) then LINKINIT else WAITFR
    case LINKINIT =>
      && d.Linking?
      && if exists n :: Negotiated(d.asking, d.offer, n) then
           to == RUNNING && Negotiated(d.asking, d.offer, d.size) && linkBufSize == if d.size < 512 then d.size else 512
         else to == if gone then NONE else UNINITIALISED
    case RUNNING =>
      if open then d.Reads? && d.logs != [] && to == AfterRead(d.logs[|d.logs| - 1], linkBufSize)
      else to == RUNNING && d.Silent?
  }

  class CamSlot {
    var slotState: SlotState
    var linkBufSize: int
    var rx: DvbRingbuffer?
    var camInserted: bool
    var camchangeCount: int
    var open: bool
    /** Every access to the control interface, in order. */
    var bus: seq<Access>
    const cam: Cam
    const irqCamchange: bool
    /** A link initialisation has succeeded and none has started since. */
    ghost var negotiated: bool

    ghost predicate Valid()
      reads this, if rx == null then {} else {rx, rx.data}
    {
      && (rx != null ==> HoldsFragments(rx) && rx.data.Length == RX_BUFFER_SIZE)
      && (negotiated ==> 2 <= linkBufSize <= HOST_LINK_BUF_SIZE)
      && linkBufSize <= HOST_LINK_BUF_SIZE && camchangeCount >= 0
      && (slotState == RUNNING ==> rx != null && negotiated)
    }

    /** The fragments waiting to be read. */
    ghost function Waiting(): seq<Fragment>
      requires Valid()
      reads this, if rx == null then {} else {rx, rx.data}
    {
      if rx == null then [] else Queue(rx)
    }

    constructor (irqCamchange: bool, cam: Cam)
      ensures Valid() && slotState == NONE && rx == null && bus == []
      ensures this.irqCamchange == irqCamchange && this.cam == cam
    {
      this.irqCamchange, this.cam := irqCamchange, cam;
      slotState := NONE;
      linkBufSize := 0;
      rx := null;
      camInserted, camchangeCount, open := false, 0, false;
      negotiated, bus := false, [];
    }

    method ReadCamControl(reg: Register) returns (v: int)
      modifies `bus
      ensures v < 256 && bus == old(bus) + [Got(reg, v)] && LastCommand(bus) == LastCommand(old(bus))
      ensures Cooperative(cam) ==> v == Answer(cam.capacity, old(bus), reg)
    {
      v := cam.get(bus, reg);
      if v >= 256 { v := -EIO; }
      LastCommandStep(bus, Got(reg, v));
      bus := bus + [Got(reg, v)];
    }

    /** A write that the interface may refuse. */
    method WriteCamControl(reg: Register, value: int) returns (status: int)
      modifies `bus
      ensures status <= 0 && bus == old(bus) + [Put(reg, value, status)]
      ensures LastCommand(bus) == if reg == Command then value else LastCommand(old(bus))
      ensures Cooperative(cam) ==> status == 0
    {
      status := Min(cam.put(bus, reg, value), 0);
      LastCommandStep(bus, Put(reg, value, status));
      bus := bus + [Put(reg, value, status)];
    }

    /**
     * The register half of dvb_ca_en50221_read_data: one link packet, or a status of 0 or less and
     * nothing. `limit` is the link buffer size for a packet that goes to the ring, otherwise the
     * size of the caller's buffer. It succeeds exactly when a packet of an allowed size is complete.
     * Two errors send the slot back to link initialisation: a length that no link packet can have,
     * and a read error reported at the end.
     */
    method ReadPacket(toRing: bool, limit: int) returns (status: int, buf: seq<Byte>, ghost log: seq<Access>)
      requires limit <= HOST_LINK_BUF_SIZE
      modifies `slotState, `bus
      ensures log != [] && bus == old(bus) + log && ReadInOrder(log)
      ensures slotState == if (toRing && BadLength(log, limit)) || FailedRead(log) then LINKINIT else old(slotState)
      ensures status > 0 <==> AllRead(log) && 0 < Announced(log) <= limit && (toRing ==> 2 <= Announced(log))
      ensures if status > 0 then WholeRead(log, buf) && status == |buf| == Announced(log) else buf == []
      ensures Cooperative(cam) && LastCommand(old(bus)) == 0x84 && limit >= 2 ==> status == 2 && buf == SizeBytes(cam.capacity)
    {
      hide Bit, LastCommand, Cooperative;
      var announced;
      status, announced, log := ReadLength();
      if !announced { return status, [], log; }
      var bytesRead := status;
      if bytesRead > limit || (toRing && bytesRead < 2) {
        if toRing { slotState := LINKINIT; }
        return -EIO, [], log;
      }
      status, buf, log := ReadBody(bytesRead, log);
    }

    /** The status, and if there is data, how much. */
    method ReadLength() returns (status: int, announced: bool, ghost log: seq<Access>)
      modifies `bus
      ensures bus == old(bus) + log && 1 <= |log| <= 3 && ReadInOrder(log) && LastCommand(bus) == LastCommand(old(bus))
      ensures !announced ==> status <= 0 && (|log| < 3 || !NoErrors(log))
      ensures announced ==> |log| == 3 && NoErrors(log) && Bit(log[0].value, 0x80) && status == Announced(log)
      ensures Cooperative(cam) && LastCommand(bus) == 0x84 ==> announced && status == 2
    {
      hide Bit, LastCommand, Cooperative, ReadInOrder, NoErrors, Announced, Be16;
      StatusBits();
      announced := false;
      status := ReadCamControl(Status);
      LengthFirst(status, 0, 0);
      log := [Got(Status, status)];
      if status < 0 || !Bit(status, 0x80) { return Min(status, 0), announced, log; }
      var high := ReadCamControl(SizeHigh);
      LengthFirst(status, high, 0);
      log := [Got(Status, status), Got(SizeHigh, high)];
      if high < 0 { return high, announced, log; }
      var low := ReadCamControl(SizeLow);
      LengthFirst(status, high, low);
      log := [Got(Status, status), Got(SizeHigh, high), Got(SizeLow, low)];
      if low < 0 { return low, announced, log; }
      status, announced := Be16(high, low), true;
    }

    /** The data, and the status behind it. */
    method ReadBody(bytesRead: nat, ghost first: seq<Access>) returns (status: int, buf: seq<Byte>, ghost log: seq<Access>)
      requires |first| == 3 && ReadInOrder(first) && NoErrors(first) && Bit(first[0].value, 0x80) && Announced(first) == bytesRead
      requires |bus| >= 3 && bus[|bus| - 1] == first[2]
      modifies `slotState, `bus
      ensures |log| > 3 && bus == old(bus) + log[3..] && log[..3] == first && ReadInOrder(log)
      ensures slotState == if FailedRead(log) then LINKINIT else old(slotState)
      ensures if AllRead(log) then WholeRead(log, buf) && status == bytesRead == |buf| else status < 0 && buf == []
      ensures Cooperative(cam) && LastCommand(old(bus)) == 0x84 && bytesRead == 2 ==> status == 2 && buf == SizeBytes(cam.capacity)
    {
      hide Bit, LastCommand, Cooperative;
      StatusBits();
      buf, log := [], first;
      while |buf| < bytesRead
        invariant |buf| <= bytesRead && slotState == old(slotState) && LastCommand(bus) == LastCommand(old(bus))
        invariant |log| == 3 + |buf| && log[..3] == first && bus == old(bus) + log[3..]
        invariant ReadInOrder(log) && NoErrors(log) && bus[|bus| - 1].reg == if buf == [] then SizeLow else Data
        invariant forall i :: 0 <= i < |buf| ==> log[3 + i].value == buf[i]
        invariant Cooperative(cam) && bytesRead == 2 ==> buf == SizeBytes(cam.capacity)[..|buf|]
      {
        var b := ReadCamControl(Data);
        log := log + [Got(Data, b)];
        if b < 0 { return b, [], log; }
        buf := buf + [b];
      }
      status := ReadCamControl(Status);
      log := log + [Got(Status, status)];
      if status < 0 { return status, [], log; }
      if Bit(status, 1) {
        slotState := LINKINIT;
        return -EIO, [], log;
      }
      status := bytesRead;
    }

    /**
     * dvb_ca_en50221_read_data into the ring. It succeeds exactly when there is a ring, with room for
     * whatever may come, and a packet of 2 to link_buf_size bytes is complete; that goes in whole
     * behind what is already there. Any other outcome leaves the ring alone.
     */
    method ReadData() returns (status: int, ghost buf: seq<Byte>, ghost log: seq<Access>)
      requires Valid()
      modifies `slotState, `bus, if rx == null then {} else {rx, rx.data}
      ensures Valid() && bus == old(bus) + log && ReadInOrder(log)
      ensures log != [] <==> rx != null && old(|rx.Bytes()|) + linkBufSize + PKTHDRSIZE < RX_BUFFER_SIZE
      ensures status > 0 <==> Admissible(log, linkBufSize)
      ensures status > 0 ==> WholeRead(log, buf) && Waiting() == old(Waiting()) + [buf]
      ensures status <= 0 ==> Waiting() == old(Waiting())
      ensures slotState == if BadLength(log, linkBufSize) || FailedRead(log) then LINKINIT else old(slotState)
    {
      hide Decodable, Decode, Encode, Ready, AllRead, FailedRead, BadLength;
      buf, log := [], [];
      NothingRead(linkBufSize);
      if rx == null { return -EIO, buf, log; }
      var bufFree := rx.Free();
      if bufFree < linkBufSize + PKTHDRSIZE { return -EAGAIN, buf, log; }
      var packet;
      status, packet, log := ReadPacket(true, linkBufSize);
      buf := packet;
      if status > 0 { Store(packet); }
    }

    method Store(buf: seq<Byte>)
      requires Valid() && rx != null && 2 <= |buf| <= linkBufSize
      requires |rx.Bytes()| + PKTHDRSIZE + |buf| < rx.data.Length
      modifies rx, rx.data
      ensures Valid() && Waiting() == old(Waiting()) + [buf]
    {
      hide Decodable, Decode;
      ghost var ps := rx.Packets();
      var n := rx.PktWrite(buf);
      ReadySplit(ps, [Packet(false, buf)]);
      ReadyOne(Packet(false, buf));
    }

    /** dvb_ca_en50221_wait_if_status: `polls` is how often there is time to look again. */
    method WaitIfStatus(waitfor: nat, polls: nat) returns (ret: int, ghost log: seq<Access>)
      requires waitfor > 0
      modifies `bus
      ensures bus == old(bus) + log && log != [] && Polled(log, waitfor, polls) && ret == Waited(log, waitfor)
      ensures LastCommand(bus) == LastCommand(old(bus))
      ensures Cooperative(cam) && (waitfor == 0x40 || (waitfor == 0x80 && LastCommand(bus) == 0x84)) ==> ret == 0
    {
      hide Bit, LastCommand, Cooperative;
      StatusBits();
      log := [];
      var i := 0;
      while true
        invariant i <= polls && |log| == i && bus == old(bus) + log && LastCommand(bus) == LastCommand(old(bus))
        invariant forall k :: 0 <= k < i ==> log[k].Got? && log[k].reg == Status && log[k].value >= 0 && !Bit(log[k].value, waitfor)
        decreases polls - i
      {
        var res := ReadCamControl(Status);
        log := log + [Got(Status, res)];
        if res < 0 { return -EIO, log; }
        if Bit(res, waitfor) { return 0, log; }
        if i == polls { return -ETIMEDOUT, log; }
        i := i + 1;
      }
    }

    /**
     * dvb_ca_en50221_write_data through the registers. A packet longer than the link buffer is
     * refused before the interface is touched. Otherwise the accesses of the write are made in order
     * up to the first that fails, and the status is its length exactly when all of them succeed. Only
     * a write error reported at the end falls back to LINKINIT.
     */
    method WriteData(buf: seq<Byte>, flag: int) returns (status: int, ghost log: seq<Access>, ghost closing: seq<Access>)
      requires Valid()
      modifies `slotState, `bus
      ensures Valid() && bus == old(bus) + log + closing
      ensures |buf| > linkBufSize ==> status == -EINVAL && log == closing == [] && slotState == old(slotState)
      ensures |buf| <= linkBufSize ==>
                && log != [] && Written(log, buf, flag) && GivenBack(log, closing)
                && var verdict := Verdict(log[|log| - 1], |log| - 1);
                   && (if WholeWrite(log, buf, flag) then status == |buf| else status == verdict < 0)
                   && slotState == if |log| == 7 + |buf| && log[|log| - 1].value >= 0 && verdict != 0
                                   then LINKINIT else old(slotState)
      ensures status == |buf| <==> WholeWrite(log, buf, flag)
      ensures status == |buf| ==> slotState == old(slotState)
      ensures Cooperative(cam) && LastCommand(old(bus)) != 0x84 && flag in {0, 2} && |buf| <= linkBufSize ==>
                status == |buf| && LastCommand(bus) == 0x80
    {
      hide Decodable, Decode, Encode, Bit, LastCommand, Cooperative;
      StatusBits();
      log, closing := [], [];
      if |buf| > linkBufSize { return -EINVAL, log, closing; }
      status := ReadCamControl(Status);
      log := [Got(Status, status)];
      if status < 0 { return; }
      if Bit(status, 0x80) || Bit(status, 1) { return -EAGAIN, log, closing; }
      status, log := WriteHosted(buf, flag, log);
      var ignored := WriteCamControl(Command, IRQEN);
      closing := [Put(Command, IRQEN, ignored)];
    }

    /** The part of dvb_ca_en50221_write_data under host control, behind the first look at the status. */
    method WriteHosted(buf: seq<Byte>, flag: int, ghost first: seq<Access>) returns (status: int, ghost log: seq<Access>)
      requires |first| == 1 && Written(first, buf, flag) && Verdict(first[0], 0) == 0
      modifies `slotState, `bus
      ensures |log| > 1 && bus == old(bus) + log[1..] && first == log[..1] && Written(log, buf, flag)
      ensures var verdict := Verdict(log[|log| - 1], |log| - 1);
              && (if WholeWrite(log, buf, flag) then status == |buf| else status == verdict < 0)
              && slotState == if |log| == 7 + |buf| && log[|log| - 1].value >= 0 && verdict != 0
                              then LINKINIT else old(slotState)
      ensures Cooperative(cam) && flag in {0, 2} ==> status == |buf|
    {
      hide Written, Bit, LastCommand, Cooperative;
      StatusBits();
      status := WriteCamControl(Command, IRQEN + CMDREG_HC + flag);
      WrittenOne(first, Put(Command, IRQEN + CMDREG_HC + flag, status), buf, flag);
      log := first + [Put(Command, IRQEN + CMDREG_HC + flag, status)];
      if status != 0 { return; }
      status := ReadCamControl(Status);
      WrittenOne(log, Got(Status, status), buf, flag);
      log := log + [Got(Status, status)];
      if status < 0 { return; }
      if !Bit(status, 0x40) { return -EAGAIN, log; }
      status := ReadCamControl(Status);
      WrittenOne(log, Got(Status, status), buf, flag);
      log := log + [Got(Status, status)];
      if status < 0 { return; }
      if Bit(status, 0x80) || Bit(status, 1) { return -EAGAIN, log; }
      status, log := WriteBody(buf, flag, log);
    }

    /** Length, data and the status behind them. */
    method WriteBody(buf: seq<Byte>, flag: int, ghost first: seq<Access>) returns (status: int, ghost log: seq<Access>)
      requires |first| == 4 && Written(first, buf, flag) && Verdict(first[3], 3) == 0
      modifies `slotState, `bus
      ensures |log| > 4 && bus == old(bus) + log[4..] && first == log[..4] && Written(log, buf, flag)
      ensures var verdict := Verdict(log[|log| - 1], |log| - 1);
              && (if WholeWrite(log, buf, flag) then status == |buf| else status == verdict < 0)
              && slotState == if |log| == 7 + |buf| && log[|log| - 1].value >= 0 && verdict != 0
                              then LINKINIT else old(slotState)
      ensures Cooperative(cam) && LastCommand(old(bus)) != 0x84 ==> status == |buf|
    {
      hide Written, Bit, LastCommand, Cooperative;
      StatusBits();
      status := WriteCamControl(SizeHigh, |buf| / 256);
      WrittenOne(first, Put(SizeHigh, |buf| / 256, status), buf, flag);
      log := first + [Put(SizeHigh, |buf| / 256, status)];
      if status != 0 { return; }
      status := WriteCamControl(SizeLow, |buf| % 256);
      WrittenOne(log, Put(SizeLow, |buf| % 256, status), buf, flag);
      log := log + [Put(SizeLow, |buf| % 256, status)];
      if status != 0 { return; }
      for i := 0 to |buf|
        invariant slotState == old(slotState) && LastCommand(bus) == LastCommand(old(bus))
        invariant |log| == 6 + i && bus == old(bus) + log[4..] && first == log[..4]
        invariant Written(log, buf, flag) && Verdict(log[5 + i], 5 + i) == 0
      {
        status := WriteCamControl(Data, buf[i]);
        WrittenOne(log, Put(Data, buf[i], status), buf, flag);
        log := log + [Put(Data, buf[i], status)];
        if status != 0 { return; }
      }
      status := ReadCamControl(Status);
      WrittenOne(log, Got(Status, status), buf, flag);
      log := log + [Got(Status, status)];
      if status < 0 { return; }
      if Bit(status, 2) {
        slotState := LINKINIT;
        return -EIO, log;
      }
      status := |buf|;
    }

    /** The size of the CAM's buffer, as a packet of two bytes. */
    method ReadSize() returns (ret: int, size: int, ghost log: seq<Access>)
      requires slotState == LINKINIT
      modifies `slotState, `bus
      ensures slotState == LINKINIT && bus == old(bus) + log && 0 <= size < 0x1_0000
      ensures ret == 0 ==> WholeRead(log, SizeBytes(size))
      ensures ret != 0 ==> forall n :: 0 <= n < 0x1_0000 ==> !WholeRead(log, SizeBytes(n))
      ensures Cooperative(cam) && LastCommand(old(bus)) == 0x84 ==> ret == 0 && size == cam.capacity
    {
      hide LastCommand, Cooperative, WholeRead, AllRead, ReadInOrder, BadLength, FailedRead, Be16, SizeBytes;
      var n, buf;
      n, buf, log := ReadPacket(false, 2);
      if n != 2 {
        OtherLength(log, n);
        return -EIO, 0, log;
      }
      ret, size := 0, Be16(buf[0], buf[1]);
      TwoBytes(size, buf);
      SizeOfBytes(cam.capacity);
    }

    /** The first half of dvb_ca_en50221_link_init: the CAM is asked for the size of its buffer. */
    method AskBufSize(polls: nat) returns (ret: int, size: int, ghost asking: Asking)
      requires slotState == LINKINIT
      modifies `slotState, `bus
      ensures slotState == LINKINIT && bus == old(bus) + asking.Accesses()
      ensures ret == 0 ==> Named(asking, size)
      ensures ret != 0 ==> forall n :: !Named(asking, n)
      ensures Cooperative(cam) ==> ret == 0 && size == cam.capacity && LastCommand(bus) == 0x80
    {
      hide LastCommand, Cooperative, WholeRead, AllRead, ReadInOrder, BadLength, FailedRead, Polled, Waited;
      size := 0;
      asking := Asking([], [], [], []);
      ret := WriteCamControl(Command, IRQEN + CMDREG_SR);
      asking := asking.(command := [Put(Command, IRQEN + CMDREG_SR, ret)]);
      assert bus == old(bus) + asking.Accesses();
      if ret != 0 { return; }
      ghost var log;
      ret, log := WaitIfStatus(0x80, polls);
      asking := asking.(wait := log);
      assert bus == old(bus) + asking.Accesses();
      if ret != 0 { return; }
      ret, size, log := ReadSize();
      asking := asking.(packet := log);
      assert bus == old(bus) + asking.Accesses();
      if ret != 0 { return; }
      ret := WriteCamControl(Command, IRQEN);
      asking := asking.(done := [Put(Command, IRQEN, ret)]);
      assert bus == old(bus) + asking.Accesses();
    }

    /** The second half: it is told the size to use. */
    method OfferBufSize(polls: nat) returns (ret: int, ghost offer: Offer)
      requires Valid() && slotState == LINKINIT && 0 <= linkBufSize
      modifies `slotState, `bus
      ensures Valid() && slotState == LINKINIT && bus == old(bus) + offer.Accesses()
      ensures ret == 0 <==> linkBufSize >= 2 && Agreed(offer, linkBufSize)
      ensures Cooperative(cam) && linkBufSize >= 2 ==> ret == 0 && LastCommand(bus) == 0x80
    {
      hide LastCommand, Cooperative, WholeWrite, Written, Verdict, GivenBack, Polled, Waited, HoldsFragments;
      offer := Offer([], [], [], [], []);
      ret := WriteCamControl(Command, IRQEN + CMDREG_SW);
      offer := offer.(command := [Put(Command, IRQEN + CMDREG_SW, ret)]);
      assert bus == old(bus) + offer.Accesses();
      if ret != 0 { return; }
      ghost var log;
      ret, log := WaitIfStatus(0x40, polls);
      offer := offer.(wait := log);
      assert bus == old(bus) + offer.Accesses();
      if ret != 0 { return; }
      ghost var closing;
      var n;
      n, log, closing := WriteData([linkBufSize / 256, linkBufSize % 256], CMDREG_SW);
      offer := offer.(packet := log, closing := closing);
      assert bus == old(bus) + offer.Accesses();
      if n != 2 { return -EIO, offer; }
      ret := WriteCamControl(Command, IRQEN);
      offer := offer.(done := [Put(Command, IRQEN, ret)]);
      assert bus == old(bus) + offer.Accesses();
    }

    /**
     * dvb_ca_en50221_link_init. It succeeds exactly when the CAM has named a size of at least 2 and
     * has agreed to the smaller one of that and 512, which is then the link buffer.
     */
    method LinkInit(polls: nat) returns (ret: int, ghost asking: Asking, ghost offer: Offer, ghost size: int)
      requires Valid() && slotState == LINKINIT
      modifies `slotState, `linkBufSize, `negotiated, `bus
      ensures Valid() && slotState == LINKINIT && bus == old(bus) + (asking.Accesses() + offer.Accesses())
      ensures ret == 0 ==> negotiated && Negotiated(asking, offer, size) && linkBufSize == if size < 512 then size else 512
      ensures ret != 0 ==> forall n :: !Negotiated(asking, offer, n)
      ensures Waiting() == old(Waiting())
      ensures Cooperative(cam) ==> ret == 0 && size == cam.capacity && LastCommand(bus) == 0x80
    {
      hide LastCommand, Cooperative, Named, Agreed, HoldsFragments, Decodable, Decode, Encode, Ready;
      negotiated := false;
      linkBufSize := 2;
      offer := Offer([], [], [], [], []);
      var bufSize;
      ret, bufSize, asking := AskBufSize(polls);
      size := bufSize;
      if ret != 0 { return; }
      NamedIsByte(asking, size);
      if bufSize > HOST_LINK_BUF_SIZE { bufSize := HOST_LINK_BUF_SIZE; }
      linkBufSize := bufSize;
      ret, offer := OfferBufSize(polls);
      if ret == 0 { negotiated := true; }
      OneSize(asking, size);
    }

    /** dvb_ca_en50221_poll_cam_gone */
    method PollCamGone(status: Poll) returns (gone: bool)
      requires Valid()
      modifies `slotState
      ensures Valid() && gone == (!irqCamchange && !status.present)
      ensures slotState == if gone then NONE else old(slotState)
    {
      gone := false;
      if !irqCamchange && !status.present {
        slotState := NONE;
        gone := true;
      }
    }

    /** dvb_ca_en50221_check_camstatus */
    method CheckCamstatus(status: Poll) returns (changed: bool)
      requires Valid()
      modifies `slotState, `camInserted, `camchangeCount
      ensures Valid()
      ensures irqCamchange ==> changed == (camchangeCount != 0) && unchanged(`slotState, `camInserted, `camchangeCount)
      ensures !irqCamchange ==>
                && changed == (status.changed || status.present != (old(slotState) != NONE))
                && camInserted == (if changed then status.present else old(camInserted))
                && camchangeCount == (if changed then 1 else old(camchangeCount))
                && slotState == if !changed && old(slotState) == WAITREADY && status.ready then VALIDATE else old(slotState)
    {
      if irqCamchange { return camchangeCount != 0; }
      changed := status.changed;
      if !changed {
        changed := status.present != (slotState != NONE);
      }
      if changed {
        camInserted := status.present;
        camchangeCount := 1;
      } else if slotState == WAITREADY && status.ready {
        slotState := VALIDATE;
      }
    }

    /** neumo_dvb_ca_en50221_camchange_irq */
    method CamchangeIrq(inserted: bool)
      requires Valid()
      modifies `camInserted, `camchangeCount
      ensures Valid() && camInserted == inserted && camchangeCount == old(camchangeCount) + 1
    {
      camInserted := inserted;
      camchangeCount := camchangeCount + 1;
    }

    /** neumo_dvb_ca_en50221_camready_irq */
    method CamreadyIrq()
      requires Valid()
      modifies `slotState
      ensures Valid() && slotState == if old(slotState) == WAITREADY then VALIDATE else old(slotState)
    {
      if slotState == WAITREADY { slotState := VALIDATE; }
    }

    /** One turn of the loop that handles card changes. */
    method HandleCamChange(poll: Poll) returns (changed: bool)
      requires Valid()
      modifies `slotState, `camInserted, `camchangeCount
      ensures Valid() && Waiting() == old(Waiting())
      ensures changed == if irqCamchange then old(camchangeCount) != 0 else Reports(poll, old(slotState) != NONE)
      ensures camInserted == if changed && !irqCamchange then poll.present else old(camInserted)
      ensures camchangeCount == if changed then (if irqCamchange then old(camchangeCount) else 1) - 1 else old(camchangeCount)
      ensures changed ==> slotState == if camInserted then UNINITIALISED else NONE
      ensures !changed ==>
                slotState == if !irqCamchange && old(slotState) == WAITREADY && poll.ready then VALIDATE
                             else old(slotState)
    {
      hide Decodable, Decode, Encode, Ready;
      changed := CheckCamstatus(poll);
      if changed {
        if slotState != NONE { slotState := NONE; }
        if camInserted { slotState := UNINITIALISED; }
        camchangeCount := camchangeCount - 1;
      }
    }

    /**
     * The loop that handles card changes. Under interrupts it takes one off the count each time; by
     * polling it goes on until a reply reports no change, and `polls` may end before that: then it
     * has not settled.
     */
    method HandleCamChanges(polls: seq<Poll>) returns (settled: bool, changes: nat)
      requires Valid()
      modifies `slotState, `camInserted, `camchangeCount
      ensures Valid() && Waiting() == old(Waiting())
      ensures irqCamchange ==>
                settled && changes == old(camchangeCount) && camchangeCount == 0 && camInserted == old(camInserted)
      ensures !irqCamchange ==>
                && changes <= |polls| && (settled <==> changes < |polls|)
                && AllReport(polls, old(slotState) != NONE, changes)
                && (polls != [] ==> (changes > 0 <==> Reports(polls[0], old(slotState) != NONE)))
                && (settled ==> !Reports(polls[changes], Before(polls, old(slotState) != NONE, changes)))
                && camInserted == if changes == 0 then old(camInserted) else polls[changes - 1].present
      ensures changes > 0 ==> slotState == if camInserted then UNINITIALISED else NONE
      ensures changes == 0 ==>
                slotState == if !irqCamchange && settled && old(slotState) == WAITREADY && polls[0].ready then VALIDATE
                             else old(slotState)
    {
      hide Reports, HoldsFragments;
      changes := 0;
      ghost var present := slotState != NONE;
      while irqCamchange || changes < |polls|
        invariant Valid() && Waiting() == old(Waiting())
        invariant irqCamchange ==> changes + camchangeCount == old(camchangeCount) && camInserted == old(camInserted)
        invariant !irqCamchange ==> changes <= |polls| && AllReport(polls, present, changes)
        invariant !irqCamchange ==> camInserted == if changes == 0 then old(camInserted) else polls[changes - 1].present
        invariant slotState == if changes == 0 then old(slotState) else if camInserted then UNINITIALISED else NONE
        decreases if irqCamchange then camchangeCount else |polls| - changes
      {
        var changed := HandleCamChange(if irqCamchange then Poll(false, false, false) else polls[changes]);
        if !changed { return true, changes; }
        changes := changes + 1;
      }
      settled := false;
    }

    /**
     * The RUNNING state: link packets are read until there are no more. Each is stored behind what
     * was there, so nothing unread is lost or overwritten. It stops when the device is closed or a
     * change is reported.
     */
    method PollForData() returns (changed: bool, ghost logs: seq<seq<Access>>)
      requires Valid() && slotState == RUNNING
      modifies `slotState, `camInserted, `camchangeCount, `bus, rx, rx.data
      ensures Valid() && bus == old(bus) + Concat(logs)
      ensures ReadOut(logs, linkBufSize, old(Waiting()), Waiting(), !open || changed)
      ensures slotState == AfterRead(logs[|logs| - 1], linkBufSize)
      ensures changed ==> camchangeCount > 0
      ensures irqCamchange ==> unchanged(`camInserted, `camchangeCount)
      ensures irqCamchange && camchangeCount > 0 ==> |logs| == 1
    {
      hide Decodable, Decode, Encode, Ready, Admissible, WholeRead, BadLength, FailedRead, ReadInOrder, HoldsFragments;
      changed, logs := false, [];
      ghost var was := Waiting();
      var pktcount := 0;
      while true
        invariant Valid() && rx == old(rx) && rx != null && slotState == RUNNING && !changed && (logs != [] ==> open)
        invariant bus == old(bus) + Concat(logs) && pktcount == |logs| < MAX_RX_PACKETS_PER_ITERATION
        invariant was <= Waiting() && |Waiting()| == |was| + |logs|
        invariant forall i :: 0 <= i < |logs| ==> Admissible(logs[i], linkBufSize) && WholeRead(logs[i], Waiting()[|was| + i])
        invariant irqCamchange ==> unchanged(`camInserted, `camchangeCount)
        invariant irqCamchange && camchangeCount > 0 ==> logs == []
        decreases MAX_RX_PACKETS_PER_ITERATION - pktcount
      {
        var n, buf, log := ReadData();
        ConcatSplit(logs, [log]);
        ConcatOne(log);
        logs := logs + [log];
        if n <= 0 { break; }
        NoFailure(log, linkBufSize);
        if !open { break; }
        var reply: Poll := *;
        changed := CheckCamstatus(reply);
        if changed { break; }
        pktcount := pktcount + 1;
        if pktcount >= MAX_RX_PACKETS_PER_ITERATION { break; }
      }
    }

    /** The LINKINIT state: on success the ring is allocated, once, and the slot runs. */
    method LinkUp(last: Poll, waits: nat) returns (ghost d: Dealings)
      requires Valid() && slotState == LINKINIT
      modifies `slotState, `linkBufSize, `negotiated, `bus, `rx
      ensures Valid() && bus == old(bus) + d.Accesses()
      ensures Follows(LINKINIT, slotState, Pass(false, true, true, last), irqCamchange, open, linkBufSize, d)
      ensures slotState == RUNNING ==> rx != null && 2 <= linkBufSize <= HOST_LINK_BUF_SIZE
      ensures old(rx) != null ==> rx == old(rx)
      ensures old(rx) == null && rx != null ==> fresh(rx) && fresh(rx.data)
      ensures Waiting() == old(Waiting())
      ensures Cooperative(cam) ==> slotState == RUNNING && d.size == cam.capacity && LastCommand(bus) == 0x80
    {
      hide Decodable, Decode, Encode, Ready, LastCommand, Cooperative, Negotiated;
      var ret;
      ghost var asking, offer, size;
      ret, asking, offer, size := LinkInit(waits);
      d := Linking(asking, offer, size);
      if ret != 0 {
        var gone := PollCamGone(last);
        if !gone { slotState := UNINITIALISED; }
        return;
      }
      if rx == null {
        var mem := new Byte[RX_BUFFER_SIZE];
        rx := new DvbRingbuffer(mem);
        ReadyOfDisposed([]);
      }
      slotState := RUNNING;
    }

    /** The VALIDATE state: attributes, configuration, and a reset of the interface. */
    method Validate(pass: Pass) returns (ghost d: Dealings)
      requires Valid() && slotState == VALIDATE
      modifies `slotState, `bus
      ensures Valid() && bus == old(bus) + d.Accesses() && Waiting() == old(Waiting())
      ensures Follows(VALIDATE, slotState, pass, irqCamchange, open, linkBufSize, d)
      ensures Cooperative(cam) && pass.attributesOk && pass.configOk ==> slotState == WAITFR
    {
      hide LastCommand, Cooperative, HoldsFragments;
      d := Silent;
      if !pass.attributesOk {
        var gone := PollCamGone(pass.last);
        if !gone { slotState := INVALID; }
      } else if !pass.configOk {
        slotState := INVALID;
      } else {
        var status := WriteCamControl(Command, CMDREG_RS);
        d := One(Put(Command, CMDREG_RS, status));
        slotState := if status != 0 then INVALID else WAITFR;
      }
    }

    /** The switch over the slot state. */
    method Switch(pass: Pass, waits: nat) returns (ghost d: Dealings)
      requires Valid()
      modifies this, if rx == null then {} else {rx, rx.data}
      ensures Valid() && bus == old(bus) + d.Accesses()
      ensures Follows(old(slotState), slotState, pass, irqCamchange, open, linkBufSize, d)
      ensures open == old(open) && (old(rx) != null ==> rx == old(rx))
      ensures old(rx) == null && rx != null ==> fresh(rx) && fresh(rx.data)
      ensures slotState == RUNNING ==> rx != null && 2 <= linkBufSize <= HOST_LINK_BUF_SIZE
      ensures old(slotState) == RUNNING && open ==>
                ReadOut(d.logs, linkBufSize, old(Waiting()), Waiting(), camchangeCount > 0)
      ensures old(slotState) != RUNNING || !open ==>
                Waiting() == old(Waiting()) && camchangeCount == old(camchangeCount)
      ensures Cooperative(cam) && old(slotState) == VALIDATE && pass.attributesOk && pass.configOk ==>
                slotState == WAITFR
      ensures Cooperative(cam) && old(slotState) == WAITFR && !pass.timedOut ==> slotState == LINKINIT
      ensures Cooperative(cam) && old(slotState) == LINKINIT ==>
                slotState == RUNNING && d.size == cam.capacity && LastCommand(bus) == 0x80
      ensures irqCamchange ==> camchangeCount == old(camchangeCount)
    {
      hide Decodable, Decode, Encode, Ready, LastCommand, Cooperative, Negotiated, Bit, AfterRead, ReadOut, HoldsFragments;
      StatusBits();
      d := Silent;
      match slotState
      case NONE =>
      case INVALID =>
      case UNINITIALISED =>
        slotState := WAITREADY;
      case WAITREADY =>
        if pass.timedOut { slotState := INVALID; }
      case VALIDATE =>
        d := Validate(pass);
      case WAITFR =>
        if pass.timedOut {
          slotState := INVALID;
        } else {
          // an error code is looked at bit by bit like a status
          var flags := ReadCamControl(Status);
          d := One(Got(Status, flags));
          if Bit(flags, 0x40) { slotState := LINKINIT; }
        }
      case LINKINIT =>
        d := LinkUp(pass.last, waits);
      case RUNNING =>
        if open {
          ghost var logs;
          var changed;
          changed, logs := PollForData();
          d := Reads(logs);
          StoppedByChange(logs, linkBufSize, old(Waiting()), Waiting(), changed, camchangeCount > 0);
        }
    }

    /**
     * One pass of dvb_ca_en50221_thread_state_machine: `from` is the state the changes of the CAM
     * leave, and each state takes its own step from there. Only LINKINIT leads to RUNNING, and what
     * waits is kept. A driver that never stops reporting changes keeps the pass in its first loop.
     */
    method ThreadStep(polls: seq<Poll>, pass: Pass, waits: nat)
      returns (settled: bool, ghost from: SlotState, ghost d: Dealings)
      requires Valid()
      modifies this, if rx == null then {} else {rx, rx.data}
      ensures Valid() && bus == old(bus) + d.Accesses() && open == old(open)
      ensures irqCamchange ==>
                && settled
                && from == if old(camchangeCount) == 0 then old(slotState)
                           else if old(camInserted) then UNINITIALISED else NONE
      ensures !irqCamchange && polls != [] && !Reports(polls[0], old(slotState) != NONE) ==>
                settled && from == if old(slotState) == WAITREADY && polls[0].ready then VALIDATE else old(slotState)
      ensures !irqCamchange && polls != [] && Reports(polls[0], old(slotState) != NONE) ==> from in {UNINITIALISED, NONE}
      ensures !settled ==> d == Silent && slotState == from && Waiting() == old(Waiting())
      ensures settled && from in {NONE, INVALID} ==> slotState == from && d == Silent
      ensures settled && from == UNINITIALISED ==> slotState == WAITREADY && d == Silent
      ensures settled && from == WAITREADY ==> slotState == (if pass.timedOut then INVALID else WAITREADY) && d == Silent
      ensures settled && from == VALIDATE && !pass.attributesOk ==>
                slotState == (if !irqCamchange && !pass.last.present then NONE else INVALID) && d == Silent
      ensures settled && from == VALIDATE && pass.attributesOk && !pass.configOk ==> slotState == INVALID && d == Silent
      ensures settled && from == VALIDATE && pass.attributesOk && pass.configOk ==>
                || (slotState == WAITFR && d == One(Put(Command, 8, 0)))
                || (slotState == INVALID && d.One? && d.access.Put? && d.access.status != 0
                    && d.access == Put(Command, 8, d.access.status))
      ensures settled && from == WAITFR && pass.timedOut ==> slotState == INVALID && d == Silent
      ensures settled && from == WAITFR && !pass.timedOut ==>
                && d.One? && d.access.Got? && d.access.reg == Status
                && slotState == if Bit(d.access.value, 0x40) then LINKINIT else WAITFR
      ensures settled && from == LINKINIT ==>
                && d.Linking?
                && if exists n :: Negotiated(d.asking, d.offer, n) then
                     slotState == RUNNING && Negotiated(d.asking, d.offer, d.size)
                     && rx != null && linkBufSize == if d.size < 512 then d.size else 512
                   else slotState == if !irqCamchange && !pass.last.present then NONE else UNINITIALISED
      ensures settled && from == RUNNING && !open ==> slotState == RUNNING && d == Silent
      ensures settled && from == RUNNING && open ==>
                && d.Reads? && ReadOut(d.logs, linkBufSize, old(Waiting()), Waiting(), camchangeCount > 0)
                && slotState == AfterRead(d.logs[|d.logs| - 1], linkBufSize)
      ensures from != RUNNING || !open ==> Waiting() == old(Waiting())
      ensures slotState == RUNNING ==> rx != null && 2 <= linkBufSize <= 512
      ensures old(rx) != null ==> rx == old(rx)
      ensures old(rx) == null && rx != null ==> fresh(rx) && fresh(rx.data)
      ensures old(Waiting()) <= Waiting()
      ensures settled && Cooperative(cam) && from == VALIDATE && pass.attributesOk && pass.configOk ==> slotState == WAITFR
      ensures settled && Cooperative(cam) && from == WAITFR && !pass.timedOut ==> slotState == LINKINIT
      ensures settled && Cooperative(cam) && from == LINKINIT ==>
                slotState == RUNNING && d.size == cam.capacity && LastCommand(bus) == 0x80
      ensures irqCamchange ==> camchangeCount == 0
    {
      hide Decodable, Decode, Encode, Ready, LastCommand, Cooperative, Negotiated, Bit, AfterRead, ReadOut, HoldsFragments,
           Reports, AllReport, Before, Follows;
      var changes;
      settled, changes := HandleCamChanges(polls);
      from := slotState;
      d := Silent;
      if !settled { return; }
      d := Switch(pass, waits);
      QuietSteps(from, slotState, pass, irqCamchange, open, linkBufSize, d);
      BusySteps(from, slotState, pass, irqCamchange, open, linkBufSize, d);
      if from == RUNNING && open {
        StoppedByChange(d.logs, linkBufSize, old(Waiting()), Waiting(), camchangeCount > 0, camchangeCount > 0);
      }
    }

    /** One fragment, tried until it is taken or fails for good; `tries` is how often there is time to. */
    method SendFragment(f: Fragment, tries: nat, ghost base: seq<Access>, ghost before: seq<Attempt>, ghost fs: seq<Fragment>)
      returns (status: int, ghost attempts: seq<Attempt>)
      requires Valid() && slotState == RUNNING && |f| <= linkBufSize
      requires bus == base + AllAccesses(before) && InTurn(before, fs) && |Through(before)| < |fs| && f == fs[|Through(before)|]
      modifies `slotState, `bus
      ensures Valid() && bus == base + AllAccesses(attempts) && InTurn(attempts, fs)
      ensures if status == 0 then Through(attempts) == Through(before) + [f] && slotState == RUNNING
              else status < 0 && Through(attempts) == Through(before)
      ensures Cooperative(cam) && LastCommand(old(bus)) != 0x84 ==>
                LastCommand(bus) != 0x84 && (tries > 0 ==> status == 0)
    {
      hide Decodable, Decode, Encode, Written, GivenBack, Verdict, WholeWrite, LastCommand, Cooperative,
           InTurn, Through, AllAccesses, HoldsFragments;
      attempts := before;
      for i := 0 to tries
        invariant Valid() && bus == base + AllAccesses(attempts)
        invariant InTurn(attempts, fs) && Through(attempts) == Through(before)
        invariant Cooperative(cam) && LastCommand(old(bus)) != 0x84 ==>
                    i == 0 && LastCommand(bus) == LastCommand(old(bus)) && slotState == RUNNING
      {
        if slotState != RUNNING { return -EIO, attempts; }
        ghost var log, closing;
        status, log, closing := WriteData(f, 0);
        OneMoreAttempt(attempts, Attempt(f, log, closing), fs);
        attempts := attempts + [Attempt(f, log, closing)];
        if status == |f| { return 0, attempts; }
        if status != -EAGAIN { return; }
      }
      status := -EIO;
    }

    /**
     * io_write for this slot. No fragment is refused for its length: every attempt reaches the
     * interface. They are made in turn, and the message is written exactly when all its fragments get
     * through. With a link buffer of exactly 2 bytes the loop would not end.
     */
    method Write(buf: seq<Byte>, tries: nat) returns (status: int, ghost attempts: seq<Attempt>)
      requires Valid() && (slotState == RUNNING && |buf| > 2 ==> linkBufSize != 2)
      modifies `slotState, `bus
      ensures Valid() && bus == old(bus) + AllAccesses(attempts)
      ensures |buf| < 2 || buf[0] != 0 || old(slotState) != RUNNING ==> status == -EINVAL && attempts == []
      ensures |buf| >= 2 && buf[0] == 0 && old(slotState) == RUNNING ==>
                var fs := if |buf| == 2 then [] else Outgoing(buf[1], buf[2..], linkBufSize);
                && InTurn(attempts, fs) && (status == |buf| <==> Through(attempts) == fs) && (status < 0 || status == |buf|)
      ensures (&& |buf| >= 2 && buf[0] == 0 && old(slotState) == RUNNING
               && Cooperative(cam) && LastCommand(old(bus)) != 0x84 && tries > 0) ==> status == |buf|
    {
      hide Decodable, Decode, Encode, InTurn, Through, AllAccesses, LastCommand, Cooperative, HoldsFragments,
           Fragments, MakeFragment;
      attempts := [];
      NothingTried([]);
      if |buf| < 2 || buf[0] != 0 || slotState != RUNNING { return -EINVAL, attempts; }
      var c, msg := buf[1], buf[2..];
      ghost var fs := if msg == [] then [] else Outgoing(c, msg, linkBufSize);
      ghost var chunk := if msg == [] then 1 else ChunkSize(linkBufSize);
      NothingTried(fs);
      NothingToSend(c, [], chunk);
      var fragpos := 0;
      assert msg[0..] == msg;
      while fragpos < |msg|
        invariant 0 <= fragpos <= |msg| && Valid() && slotState == RUNNING
        invariant bus == old(bus) + AllAccesses(attempts) && InTurn(attempts, fs)
        invariant fs == Through(attempts) + Fragments(c, msg[fragpos..], chunk)
        invariant Cooperative(cam) && LastCommand(old(bus)) != 0x84 ==> LastCommand(bus) != 0x84
      {
        var fraglen := linkBufSize - 2;
        if fraglen > HOST_LINK_BUF_SIZE - 2 { fraglen := HOST_LINK_BUF_SIZE - 2; }
        if |msg| - fragpos < fraglen { fraglen := |msg| - fragpos; }
        var fragbuf := MakeFragment(c, fragpos + fraglen < |msg|, msg[fragpos..fragpos + fraglen]);
        SendStep(Through(attempts), c, msg, fragpos, fraglen, chunk);
        status, attempts := SendFragment(fragbuf, tries, old(bus), attempts, fs);
        if status != 0 { return; }
        fragpos := fragpos + fraglen;
      }
      NothingToSend(c, Through(attempts), chunk);
      assert msg[fragpos..] == [];
      status := |msg| + 2;
    }

    /**
     * A CAM that answers everything runs after four passes: reset and waited for, validated, free,
     * and its link initialised. The link buffer is the smaller one of its own and 512 bytes.
     */
    method BringUp(waits: nat) returns (ghost trace: seq<SlotState>)
      requires Valid() && slotState == UNINITIALISED && (irqCamchange ==> camchangeCount == 0) && Cooperative(cam)
      modifies this, if rx == null then {} else {rx, rx.data}
      ensures trace == [WAITREADY, WAITFR, LINKINIT, RUNNING]
      ensures Valid() && slotState == RUNNING && linkBufSize == if cam.capacity < 512 then cam.capacity else 512
      ensures LastCommand(bus) == 0x80 && rx != null && Waiting() == old(Waiting())
    {
      hide Decodable, Decode, Encode, Ready, LastCommand, Cooperative, Negotiated, Bit, HoldsFragments, ReadOut, AfterRead;
      trace := [];
      var ready := [Poll(true, false, true)];
      var pass := Pass(false, true, true, Poll(true, false, true));
      for i := 0 to 4
        invariant Valid() && (irqCamchange ==> camchangeCount == 0) && |trace| == i && Waiting() == old(Waiting())
        invariant old(rx) != null ==> rx == old(rx)
        invariant old(rx) == null && rx != null ==> fresh(rx) && fresh(rx.data)
        invariant slotState == if i == 0 then UNINITIALISED else [WAITREADY, WAITFR, LINKINIT, RUNNING][i - 1]
        invariant trace == [WAITREADY, WAITFR, LINKINIT, RUNNING][..i]
        invariant i == 4 ==> LastCommand(bus) == 0x80
        invariant i == 4 ==> linkBufSize == if cam.capacity < 512 then cam.capacity else 512
      {
        if irqCamchange { CamreadyIrq(); }
        var settled;
        ghost var from, d;
        settled, from, d := ThreadStep(ready, pass, waits);
        trace := trace + [slotState];
      }
    }

    /** io_read on a device with this one slot. */
    method Read(count: nat) returns (status: int, buf: seq<Byte>)
      requires Valid()
      modifies if rx == null then {} else {rx, rx.data}
      ensures Valid()
      ensures var q := old(Waiting());
              if count < 2 then status == -EINVAL && buf == [] && Waiting() == q
              else if slotState != RUNNING || q == [] || !HasLast(q, Connection(q[0]))
              then status == -EWOULDBLOCK && buf == [] && Waiting() == q
              else
                var c := Connection(q[0]);
                buf == Reply(0, c, Message(q, c), count) && status == |buf| && Waiting() == Rest(q, c)
    {
      hide Decodable, Decode, Encode, Ready, HasLast, Message, Rest, Scan;
      var slots := [Slot(slotState == RUNNING, rx)];
      ghost var vs, after := [View(slots[0])], [];
      var next, bug;
      OneSlotReadsExactlyWhen(vs[0]);
      assert slots[0].rx == rx;
      status, buf, next, bug, after := IoRead(slots, 0, count, vs);
      assert SlotOk(slots[0]) && after[0] == View(slots[0]);
    }

    /**
     * Any sequence of thread passes, interrupts, reads and writes keeps the slot valid. Of everything
     * that was ever stored, reads have taken the front and the rest waits, for each connection.
     */
    method Run(steps: nat) returns (ghost stored: seq<Fragment>, ghost taken: seq<Fragment>)
      requires Valid()
      modifies this, if rx == null then {} else {rx, rx.data}
      ensures Valid()
      ensures slotState == RUNNING ==> rx != null && 2 <= linkBufSize <= HOST_LINK_BUF_SIZE
      ensures old(Waiting()) <= stored
      ensures Accounted(stored, taken, Waiting())
    {
      hide Decodable, Decode, Encode, Ready, Of, Accounted, HoldsFragments, HasLast, Message, Rest, Taken, Reply,
           Written, GivenBack, Verdict;
      stored, taken := Waiting(), [];
      NothingTaken(stored);
      for i := 0 to steps
        invariant Valid()
        invariant old(rx) != null ==> rx == old(rx)
        invariant old(rx) == null && rx != null ==> fresh(rx) && fresh(rx.data)
        invariant old(Waiting()) <= stored && Accounted(stored, taken, Waiting())
      {
        var op: int := *;
        var flag: bool := *;
        ghost var was := Waiting();
        if op == 0 {
          CamchangeIrq(flag);
        } else if op == 1 {
          CamreadyIrq();
        } else if op == 2 {
          open := flag;
        } else if op == 3 {
          var buf: seq<Byte> := *;
          // with a link buffer of 2 bytes it would not end
          if |buf| <= 2 || linkBufSize != 2 {
            var status, attempts := Write(buf, steps);
          }
        } else if op == 4 {
          var count: nat := *;
          var status, buf := Read(count);
          if Waiting() != was {
            var c := Connection(was[0]);
            ReadAccounted(stored, taken, was, c);
            taken := taken + Taken(was, c);
          }
        } else {
          var polls: seq<Poll> := *;
          var pass: Pass := *;
          var settled, from, d := ThreadStep(polls, pass, steps);
          ghost var more := Waiting()[|was|..];
          MoreAccounted(stored, taken, was, more);
          assert was + more == Waiting();
          stored := stored + more;
        }
      }
    }
  }

  /** For each connection, what was stored is what was taken and then what waits. */
  ghost predicate Accounted(stored: seq<Fragment>, taken: seq<Fragment>, waiting: seq<Fragment>) {
    forall c :: Of(stored, c) == Of(taken, c) + Of(waiting, c)
  }

  lemma NothingTaken(waiting: seq<Fragment>)
    ensures Accounted(waiting, [], waiting)
  {
    forall c ensures Of(waiting, c) == Of([], c) + Of(waiting, c) {
    }
  }

  lemma ReadAccounted(stored: seq<Fragment>, taken: seq<Fragment>, waiting: seq<Fragment>, c: Byte)
    requires Accounted(stored, taken, waiting)
    ensures Accounted(stored, taken + Taken(waiting, c), Rest(waiting, c))
  {
    hide Of;
    forall d ensures Of(stored, d) == Of(taken + Taken(waiting, c), d) + Of(Rest(waiting, c), d) {
      TakenAndRest(waiting, c, d);
      OfSplit(taken, Taken(waiting, c), d);
      Associative(Of(taken, d), Of(Taken(waiting, c), d), Of(Rest(waiting, c), d));
    }
  }

  lemma MoreAccounted(stored: seq<Fragment>, taken: seq<Fragment>, waiting: seq<Fragment>, more: seq<Fragment>)
    requires Accounted(stored, taken, waiting)
    ensures Accounted(stored + more, taken, waiting + more)
  {
    hide Of;
    forall d ensures Of(stored + more, d) == Of(taken, d) + Of(waiting + more, d) {
      OfSplit(stored, more, d);
      OfSplit(waiting, more, d);
      Associative(Of(taken, d), Of(waiting, d), Of(more, d));
    }
  }
}
