/**
 * What damage does to the T2-MI reframer: a lost transport packet, a damaged packet or sub-header,
 * and a gap in the count of T2-MI packets.
 */
module T2miFaults {
  import opened Bytes
  import opened Crc
  import opened BbFrames
  import opened T2mi
  import opened T2miStreams
  import opened T2miProofs
  import opened T2miTransport
  import opened T2miPlayback

  /** Waiting for the next packet start, with every stream as it was in the beginning but for what it has put out. */
  predicate StartedOver(t: Reframer, u: Reframer) {
    && !u.synced && u.phase == Head([]) && u.count == -1 && u.cc == -1 && u.current == -1
    && u.defaultPlp == t.defaultPlp && u.rxs.Keys == t.rxs.Keys
    && forall k :: k in t.rxs ==> u.rxs[k].out == t.rxs[k].out && u.rxs[k].v == FreshState()
  }

  /** Reading never counts a transport packet as lost, and remembers the counter. */
  lemma {:induction false} FoldKeepsCc(t: Reframer, x: seq<Byte>)
    requires Ok(t)
    ensures var u := FoldT(t, x); !u.bad ==> u.ccErrors == t.ccErrors
    decreases |x|
  {
    if x != [] {
      StepOk(t, x[0]);
      var s := StepT(t, x[0]);
      StepKeepsCc(t, x[0]);
      FoldKeepsCc(s, x[1..]);
      if s.bad { FoldDrop(s, x[1..]); }
    }
  }

  lemma StepKeepsCc(t: Reframer, x: Byte)
    requires Ok(t)
    ensures var u := StepT(t, x); !u.bad ==> u.ccErrors == t.ccErrors
  {
    hide Fold, Crc32, Crc8, ModeBits, Select, OnHeader, ResetRxs;
  }

  /** A raw packet with payload, not scrambled, of the PID. */
  predicate ForUs(packet: seq<Byte>, pid: nat) {
    && WellFramed(packet) && Be16(packet[1] % 0x20, packet[2]) == pid
    && packet[3] / 0x40 == 0 && packet[3] / 0x10 % 2 == 1
  }

  /** The flag of the adaptation field that the code looks at. */
  predicate Announced(packet: seq<Byte>)
    requires WellFramed(packet)
  {
    packet[3] / 0x20 % 2 == 1 && packet[4] > 0 && packet[5] / 8 % 2 == 1
  }

  /**
   * A transport packet that does not follow on the last one, and does not announce it: everything
   * starts over, and the packet is not read. It is the only case in which that is counted.
   */
  lemma LostPacket(t: Reframer, pid: nat, packet: seq<Byte>)
    requires Ok(t) && t.synced && t.cc >= 0 && ForUs(packet, pid)
    ensures var u := OnPacket(t, pid, ParseTs(packet));
            if packet[3] % 0x10 == (t.cc + 1) % 0x10 || Announced(packet) then !u.bad ==> u.ccErrors == t.ccErrors
            else StartedOver(t, u) && u.ccErrors == t.ccErrors + 1
  {
    hide FoldT, Relevant;
    var ts := ParseTs(packet);
    if ts.cc == (t.cc + 1) % 0x10 || ts.discontinuity {
      var v := t.(cc := ts.cc);
      CcOk(t, ts.cc);
      if !PointerOverruns(ts.pusi, ts.payload) { FoldKeepsCc(v, Relevant(v.synced, ts.pusi, ts.payload)); }
    }
  }

  /** Any other packet leaves everything as it is, and so does one in the middle while a start is waited for. */
  lemma NotForUs(t: Reframer, pid: nat, packet: seq<Byte>)
    requires Ok(t) && WellFramed(packet)
    ensures !ForUs(packet, pid) || (!t.synced && packet[1] / 0x40 % 2 == 0) ==> OnPacket(t, pid, ParseTs(packet)) == t
  {
    hide FoldT, Relevant;
  }

  /** Then nothing is read until a packet begins, and that is read from its start whatever its counter. */
  lemma BehindLostPacket(t: Reframer, u: Reframer, pid: int, ts: Ts)
    requires Ok(u) && StartedOver(t, u) && !u.drop && ts.cc < 16
    requires ts.pid == pid && ts.payload != [] && !ts.scrambled
    ensures !ts.pusi ==> OnPacket(u, pid, ts) == u
    ensures ts.pusi && 1 + ts.payload[0] < |ts.payload| ==>
              Ok(u.(cc := ts.cc)) && OnPacket(u, pid, ts) == Whole(FoldT(u.(cc := ts.cc), ts.payload[1 + ts.payload[0]..]))
  {
    hide FoldT;
    CcOk(u, ts.cc);
  }

  /**
   * Whatever four bytes end a packet: its frame has reached its stream by then, and it is counted as
   * damaged exactly when they are not the CRC of what came before them.
   */
  lemma DamagedPacket(t: Reframer, p: T2Packet, w: seq<Byte>)
    requires Between(t) && Acceptable(t, p) && |w| == CRC_SIZE
    ensures var b := Header(p) + Payload(p.content);
            FoldT(t, b + w)
            == After(t, p).(crc32Errors := t.crc32Errors + if Word(w[0], w[1], w[2], w[3]) == Crc32(0xffff_ffff, b) then 0 else 1)
  {
    hide FoldT, Crc32, WordBytes, Ok, Header, SubHeader, Received, Accepted, Word;
    var b := Header(p) + Payload(p.content);
    if p.content.Baseband? { FrameIn(t, p); } else { OtherIn(t, p); }
    FoldTOk(t, b);
    FoldTSplit(t, b, w);
    FoldTail(FoldT(t, b), w);
    Crc32Split(0xffff_ffff, b, w);
    assert w == [w[0], w[1], w[2], w[3]];
    Residue(0xffff_ffff, b, w[0], w[1], w[2], w[3]);
  }

  /** The last byte of a sub-header is the CRC-8 of the nine before it in neither mode. */
  predicate Damaged(b: seq<Byte>)
    requires |b| == BBHEADER_SIZE
  {
    var crc, check := Crc8(0, b[3..12]) as bv8, b[12] as bv8;
    check != HeaderCheck(crc, false) && check != HeaderCheck(crc, true)
  }

  lemma DamagedMode(b: seq<Byte>)
    requires |b| == BBHEADER_SIZE && Damaged(b)
    ensures ModeBits(Crc8(0, b[3..13][..9]), b[3..13][9]) & 0xfe != 0
  {
    hide Crc8, ModeBits, HeaderCheck;
    assert b[3..13][..9] == b[3..12] && b[3..13][9] == b[12];
    HeaderModeRecovered(Crc8(0, b[3..12]), b[12]);
  }

  lemma StartsOver(t: Reframer)
    ensures StartedOver(t, ResetAll(t).(drop := true))
  {
  }

  /** Such a sub-header makes everything start over, and is counted. */
  lemma DamagedSubHeader(t: Reframer, left: int, b: seq<Byte>)
    requires Ok(t) && !t.bad && !t.drop && t.phase == BbHead(left, []) && |b| == BBHEADER_SIZE && Damaged(b)
    ensures var u := FoldT(t, b); u.drop && StartedOver(t, u) && u.crc8Errors == t.crc8Errors + 1
  {
    hide FoldT, Crc32, Crc8, ModeBits, Damaged, ResetRxs, Ok, StartedOver;
    FoldBbHead(t, b);
    assert [] + b == b;
    DamagedMode(b);
    StartsOver(t);
    OnlyCounted(t, ResetAll(t).(drop := true), FoldT(t, b));
  }

  lemma OnlyCounted(t: Reframer, u: Reframer, v: Reframer)
    requires StartedOver(t, u) && v == u.(crc8Errors := v.crc8Errors)
    ensures StartedOver(t, v)
  {
  }

  /**
   * A header whose count does not follow on is not believed: the four bytes behind it are read as a
   * CRC, the next header is looked for behind those, and the count expected stays the same.
   */
  lemma CountGap(t: Reframer, h: seq<Byte>, w: seq<Byte>)
    requires Between(t) && t.count >= 0 && t.current != -1
    requires |h| == HEADER_SIZE && h[1] != (t.count + 1) % 256 && |w| == CRC_SIZE
    ensures var u := FoldT(t, h + w);
            && u.phase == Head([]) && u.count == t.count && u.current == t.current && u.rxs == t.rxs
            && u.crc32Errors == t.crc32Errors + if Crc32(0xffff_ffff, w) == 0 then 0 else 1
  {
    hide FoldT, Crc32;
    FoldHead(t, h);
    assert [] + h == h;
    FoldTOk(t, h);
    FoldTSplit(t, h, w);
    FoldTail(FoldT(t, h), w);
  }
}
