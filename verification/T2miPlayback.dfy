/**
 * The T2-MI chain end to end, on the objects: the raw transport packets of any T2-MI transmission
 * are given to a stream object with freshly registered extractors, and each extractor puts out
 * exactly the user packets of its pipe. And what becomes of packets nobody has registered for.
 */
module T2miPlayback {
  import opened Bytes
  import opened Crc
  import opened BbFrames
  import opened T2mi
  import opened T2miStreams
  import opened T2miProofs
  import opened T2miRoundTrip
  import opened T2miTransport
  import SD = SectionDemux
  import SP = SectionProofs

  /** Every stream puts out what it was sent, whatever the cuts and whatever precedes the first packet. */
  lemma RoundTrip(ps: seq<T2Packet>, modes: map<int, bool>, ups: map<int, seq<seq<Byte>>>,
                  pid: int, rest: seq<Byte>, sizes: seq<nat>, cc: nat)
    requires WellSent(ps, modes, ups) && cc < 16 && SizesOk(rest, Units(ps), sizes) && sizes != [] && sizes[0] > |rest|
    ensures Ok(Started(NewRxs(modes.Keys)))
    ensures var u := OnPackets(Started(NewRxs(modes.Keys)), pid, Packetise(pid, rest, Units(ps), sizes, cc));
            && !u.bad && u.phase == Head([]) && u.crc32Errors == 0 && u.crc8Errors == 0 && u.ccErrors == 0
            && u.rxs.Keys == modes.Keys && forall k :: k in modes ==> u.rxs[k].out == ups[k]
  {
    hide FoldT, OnPackets, Packetise, Concat, SizesOk, Carries, For, Routed, Ok, Delivered;
    StartedOk(modes.Keys);
    UserPacketsArrive(ps, modes, ups);
    Transport(Started(NewRxs(modes.Keys)), pid, rest, Units(ps), sizes, cc);
  }

  // ---------------------------------------------------------------------------------------------
  // On the objects
  // ---------------------------------------------------------------------------------------------

  /** A transport packet without adaptation flags, as a raw packet can carry it. */
  predicate Plain(ts: Ts, pid: nat) {
    ts.pid == pid < 0x2000 && !ts.scrambled && !ts.discontinuity && ts.cc < 16 && 1 <= |ts.payload| <= 184
  }

  function Raw(ts: Ts, pid: nat): (packet: seq<Byte>)
    requires Plain(ts, pid)
    ensures |packet| == TS_SIZE
  {
    SP.MakePacket(SD.Pkt(ts.pusi, ts.cc, false, ts.payload), pid)
  }

  lemma ParseRaw(ts: Ts, pid: nat)
    requires Plain(ts, pid)
    ensures WellFramed(Raw(ts, pid)) && ParseTs(Raw(ts, pid)) == ts
  {
    var packet, gap := Raw(ts, pid), 183 - |ts.payload|;
    assert packet[1] == (if ts.pusi then 0x40 else 0) + pid / 256 && packet[2] == pid % 256;
    assert packet[3] == (if gap < 0 then 0x10 else 0x30) + ts.cc;
    assert gap >= 0 ==> packet[4] == gap;
    assert gap > 0 ==> packet[5] == 0;
    assert packet[PayloadStart(packet)..] == ts.payload;
  }

  lemma {:induction false} PacketisePlain(pid: nat, rest: seq<Byte>, us: seq<seq<Byte>>, sizes: seq<nat>, cc: nat)
    requires SizesOk(rest, us, sizes) && pid < 0x2000
    ensures forall ts :: ts in Packetise(pid, rest, us, sizes, cc) ==> Plain(ts, pid)
    decreases |sizes|
  {
    hide Cut, Concat, Advance, SizeOk;
    if sizes != [] {
      PacketiseFirst(pid, rest, us, sizes, cc);
      var (rest', us') := Advance(rest, us, sizes[0]);
      PacketisePlain(pid, rest', us', sizes[1..], (cc + 1) % 16);
    }
  }

  /** Raw packets, one after the other. */
  method AddPackets(t2mi: T2miStream, pid: nat, tss: seq<Ts>)
    requires t2mi.Valid() && t2mi.embeddingPid == pid && forall ts :: ts in tss ==> Plain(ts, pid)
    requires forall i :: 0 <= i < |tss| ==> tss[i].cc < 16
    requires Ok(t2mi.View()) && !OnPackets(t2mi.View(), pid, tss).bad
    modifies t2mi, t2mi.buff, t2mi.repr
    ensures t2mi.Valid() && t2mi.View() == OnPackets(old(t2mi.View()), pid, tss)
  {
    hide OnPacket, Ok, T2miStream.Valid, T2miStream.View, Plain;
    ghost var t := t2mi.View();
    assert tss[0..] == tss;
    for i := 0 to |tss|
      invariant t2mi.Valid() && Ok(t2mi.View())
      invariant OnPackets(t, pid, tss) == OnPackets(t2mi.View(), pid, tss[i..])
    {
      ghost var u := t2mi.View();
      assert tss[i] in tss;
      ParseRaw(tss[i], pid);
      assert tss[i..] == [tss[i]] + tss[i + 1..];
      OnPacketsFirst(u, pid, tss[i], tss[i + 1..]);
      if OnPacket(u, pid, tss[i]).bad { BadPackets(OnPacket(u, pid, tss[i]), pid, tss[i + 1..]); }
      t2mi.AddPacket(Raw(tss[i], pid));
    }
  }

  /** Input the model gives up on stays given up on. */
  lemma {:induction false} BadPackets(t: Reframer, pid: int, tss: seq<Ts>)
    requires Ok(t) && t.bad && forall i :: 0 <= i < |tss| ==> tss[i].cc < 16
    ensures OnPackets(t, pid, tss).bad
    decreases |tss|
  {
    hide FoldT, Ok, Relevant, PointerOverruns;
    if tss != [] {
      var ts := tss[0];
      OnPacketOk(t, pid, ts);
      if !Ignored(t, pid, ts) && !CcError(t, ts) {
        CcOk(t, ts.cc);
        if !PointerOverruns(ts.pusi, ts.payload) {
          FoldDrop(t.(cc := ts.cc), Relevant(t.synced, ts.pusi, ts.payload));
        }
      }
      BadPackets(OnPacket(t, pid, ts), pid, tss[1..]);
    }
  }

  /** The round trip on the objects. */
  method PlayBack(streams: map<int, BbframesStream>, ps: seq<T2Packet>, modes: map<int, bool>,
                  ups: map<int, seq<seq<Byte>>>, pid: nat, rest: seq<Byte>, sizes: seq<nat>, cc: nat)
    returns (t2mi: T2miStream)
    requires WellSent(ps, modes, ups) && cc < 16 && SizesOk(rest, Units(ps), sizes) && sizes != [] && sizes[0] > |rest|
    requires streams.Keys == modes.Keys && pid < 0x2000 && forall k :: k in streams ==> streams[k].New()
    requires forall j, k :: j in streams && k in streams && j != k ==>
               streams[j] != streams[k] && streams[j].buff != streams[k].buff
    modifies set k | k in streams :: streams[k], set k | k in streams :: streams[k].buff
    ensures forall k :: k in modes ==> streams[k].output == ups[k]
    ensures t2mi.Valid() && t2mi.numCcErrors == 0 && t2mi.numCrc8Errors == 0 && t2mi.numCrc32Errors == 0
  {
    hide WellSent, SizesOk, Packetise, OnPackets, Ok, Units, T2miStream.Valid, T2miStream.View, BbframesStream.New, T2miStream.Linked, Plain;
    SentParts(ps, modes, ups);
    RoundTrip(ps, modes, ups, pid, rest, sizes, cc);
    PacketisePlain(pid, rest, Units(ps), sizes, cc);
    t2mi := new T2miStream(pid, streams);
    StartStates(modes.Keys);
    t2mi.LinkedParts();
    t2mi.AtStart();
    AddPackets(t2mi, pid, Packetise(pid, rest, Units(ps), sizes, cc));
    t2mi.ValidParts();
    forall k | k in streams ensures streams[k].output == ups[k] { t2mi.Output(k); }
  }

  lemma SentParts(ps: seq<T2Packet>, modes: map<int, bool>, ups: map<int, seq<seq<Byte>>>)
    requires WellSent(ps, modes, ups)
    ensures AllWellFormed(ps) && -1 !in modes && ups.Keys == modes.Keys
  {
  }

  lemma StartStates(keys: set<int>)
    ensures forall k :: k in NewRxs(keys) ==> RxOk(NewRxs(keys)[k])
  {
  }

  // ---------------------------------------------------------------------------------------------
  // Packets nobody has registered for
  // ---------------------------------------------------------------------------------------------

  /**
   * A well-formed packet is read to its end exactly when a stream is selected by then: its own if
   * it is a frame, the one of an earlier frame if it is anything else.
   */
  lemma ReadExactlyWhenSelected(t: Reframer, p: T2Packet)
    requires Between(t) && WellFormed(p) && (t.count >= 0 ==> p.count == (t.count + 1) % 256)
    requires p.content.Baseband? && Stream(t, p.content) != -1 ==> Acceptable(t, p)
    ensures FoldT(t, Serialise(p)).phase.Lost? <==> Stream(t, p.content) == -1
    ensures Stream(t, p.content) != -1 ==> FoldT(t, Serialise(p)).phase == Head([])
  {
    hide FoldT, Serialise, Ok, After, Received, Accepted;
    if Stream(t, p.content) != -1 {
      OnePacket(t, p);
    } else if p.content.Baseband? {
      FrameLost(t, p);
    } else {
      OtherLost(t, p);
    }
  }

  /**
   * The stream of a frame, whatever was before: the one of its PLP is looked up first, and the one
   * under 256 only if there is none and no frame of another PLP has been seen. All others are left alone.
   */
  lemma FrameReaches(t: Reframer, p: T2Packet)
    requires Between(t) && WellFormed(p) && (t.count >= 0 ==> p.count == (t.count + 1) % 256) && p.content.Baseband?
    requires forall k :: k in t.rxs && k in {p.content.intro[1] as int, 256} ==> RxOk(t.rxs[k]) && Accepted(t.rxs[k], p.content)
    ensures var n: int := p.content.intro[1];
            var u := FoldT(t, Serialise(p));
            && u.defaultPlp == (if t.defaultPlp < 0 then n else t.defaultPlp)
            && if n in t.rxs then
                 u.phase == Head([]) && u.current == n && u.rxs == t.rxs[n := Received(t.rxs[n], p.content)]
               else if 256 in t.rxs && (t.defaultPlp < 0 || t.defaultPlp == n) then
                 u.phase == Head([]) && u.current == 256 && u.rxs == t.rxs[256 := Received(t.rxs[256], p.content)]
               else
                 u.phase.Lost? && u.rxs == t.rxs
  {
    hide FoldT, Serialise, Ok, Received, Accepted;
    StreamOfFrame(t, p.content);
    if Stream(t, p.content) != -1 { OnePacket(t, p); } else { FrameLost(t, p); }
  }

  /** The header alone leads there when no stream has been selected yet. */
  lemma OtherLost(t: Reframer, p: T2Packet)
    requires Between(t) && WellFormed(p) && (t.count >= 0 ==> p.count == (t.count + 1) % 256)
    requires p.content.Other? && t.current == -1
    ensures FoldT(t, Serialise(p)).phase.Lost?
  {
    hide FoldT, Crc32, Payload, Ok, WordBytes;
    var h := Header(p);
    var x := Serialise(p);
    FoldHead(t, h);
    assert [] + h == h && x[..HEADER_SIZE] == h;
    assert x == h + x[HEADER_SIZE..];
    FoldTSplit(t, h, x[HEADER_SIZE..]);
    FoldDrop(FoldT(t, h), x[HEADER_SIZE..]);
  }

  lemma FrameLost(t: Reframer, p: T2Packet)
    requires Between(t) && WellFormed(p) && (t.count >= 0 ==> p.count == (t.count + 1) % 256)
    requires p.content.Baseband? && Stream(t, p.content) == -1
    ensures var u := FoldT(t, Serialise(p));
            u.phase.Lost? && u.rxs == t.rxs && u.defaultPlp == DefaultPlp(t, p.content)
  {
    hide FoldT, Crc32, Ok, WordBytes, Header, SubHeader, BbheaderRead;
    var h, b := Header(p), SubHeader(p.content);
    var x := Serialise(p);
    var y := x[HEADER_SIZE + BBHEADER_SIZE..];
    HeaderOfFrame(t, p);
    SerialiseFront(p);
    assert x == (h + b) + y;
    var u := FoldT(t, h);
    FoldTSplit(t, h, b);
    FoldTSplit(t, h + b, y);
    FoldTOk(t, h);
    FoldBbHead(u, b);
    assert [] + b == b;
    LostSubHeader(u.(phase := Head([]), crc := Crc32(u.crc, b)), p.content, u.phase.left);
    FoldTOk(t, h + b);
    FoldDrop(FoldT(t, h + b), y);
  }

  lemma SerialiseFront(p: T2Packet)
    requires WellFormed(p) && p.content.Baseband?
    ensures var x := Serialise(p);
            |x| >= HEADER_SIZE + BBHEADER_SIZE && x[..HEADER_SIZE + BBHEADER_SIZE] == Header(p) + SubHeader(p.content)
  {
    hide Crc32, WordBytes, Header, SubHeader;
  }

  lemma HeaderOfFrame(t: Reframer, p: T2Packet)
    requires Between(t) && WellFormed(p) && (t.count >= 0 ==> p.count == (t.count + 1) % 256) && p.content.Baseband?
    ensures FoldT(t, Header(p)) == t.(synced := true, count := p.count, crc := Crc32(0xffff_ffff, Header(p)),
                                      phase := BbHead(|Payload(p.content)|, []))
  {
    hide FoldT, Crc32, Payload, Ok;
    FoldHead(t, Header(p));
    assert [] + Header(p) == Header(p);
  }

  lemma LostSubHeader(u: Reframer, c: Content, left: int)
    requires c.Baseband? && WellFormedContent(c)
    requires Select(u.rxs.Keys, if u.defaultPlp < 0 then c.intro[1] else u.defaultPlp, c.intro[1]) == -1
    ensures var r := BbheaderRead(u, SubHeader(c), left);
            r.phase.Lost? && r.rxs == u.rxs && r.defaultPlp == if u.defaultPlp < 0 then c.intro[1] else u.defaultPlp
  {
    hide Crc8, ModeBits, Select, BbHeader;
    var b := SubHeader(c);
    assert b[3..13] == BbHeader(c.header, c.hem) && b[1] == c.intro[1];
    ModeOfOwnHeader(c.header, c.hem);
    OwnMode(c.hem);
  }

  /** There is no way out of it but a gap in the counter of the transport packets. */
  lemma LostForGood(t: Reframer, pid: int, ts: Ts)
    requires Ok(t) && !t.drop && t.phase.Lost? && ts.cc < 16
    ensures OnPacket(t, pid, ts).phase.Lost? <==> Ignored(t, pid, ts) || !CcError(t, ts)
    ensures OnPacket(t, pid, ts).rxs == t.rxs || CcError(t, ts)
  {
    hide FoldT, Relevant, PointerOverruns;
    if !Ignored(t, pid, ts) && !CcError(t, ts) {
      CcOk(t, ts.cc);
      if !PointerOverruns(ts.pusi, ts.payload) {
        FoldDrop(t.(cc := ts.cc), Relevant(t.synced, ts.pusi, ts.payload));
      }
    }
  }
}
