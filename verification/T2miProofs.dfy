/**
 * What the T2-MI reframer guarantees for well-formed T2-MI packets (clause 5 of ETSI TS 102 773):
 * every baseband frame reaches its stream, everything else is skipped whole, however the packets
 * are cut into transport packets.
 */
module T2miProofs {
  import opened Bytes
  import opened Crc
  import opened BbFrames
  import opened T2mi
  import opened T2miStreams
  import P = BbFramesProofs

  // ---------------------------------------------------------------------------------------------
  // T2-MI packets as they are sent
  // ---------------------------------------------------------------------------------------------

  /**
   * A baseband frame is sent behind three bytes of its own (the second names the PLP) and the ten
   * of the BBHEADER, whose last one is the CRC-8 of the nine in `header` with the mode in it.
   */
  datatype Content =
    | Baseband(intro: seq<Byte>, header: seq<Byte>, hem: bool, field: seq<Byte>)
    | Other(kind: Byte, bytes: seq<Byte>)

  datatype T2Packet = T2Packet(count: Byte, misc: seq<Byte>, hi: Byte, lo: Byte, content: Content)

  function BbHeader(header: seq<Byte>, hem: bool): (b: seq<Byte>)
    requires |header| == 9
    ensures |b| == 10
  {
    header + [HeaderCheckByte(Crc8(0, header), hem)]
  }

  predicate WellFormedContent(c: Content) {
    match c
    case Baseband(intro, header, hem, field) =>
      && |intro| == 3 && |header| == 9
      && Be16(header[4], header[5]) / 8 <= |field|
      && (!hem ==> Be16(header[2], header[3]) / 8 == TS_SIZE && Be16(header[4], header[5]) / 8 == |field|)
    case Other(kind, bytes) => kind != 0
  }

  function SubHeader(c: Content): (b: seq<Byte>)
    requires c.Baseband? && WellFormedContent(c)
    ensures |b| == BBHEADER_SIZE
  {
    c.intro + BbHeader(c.header, c.hem)
  }

  function Payload(c: Content): seq<Byte>
    requires WellFormedContent(c)
  {
    if c.Baseband? then SubHeader(c) + c.field else c.bytes
  }

  /** The length field counts bits. */
  predicate WellFormed(p: T2Packet) {
    |p.misc| == 2 && WellFormedContent(p.content) && |Payload(p.content)| == (Be16(p.hi, p.lo) + 7) / 8
  }

  function Header(p: T2Packet): (h: seq<Byte>)
    requires WellFormed(p)
    ensures |h| == HEADER_SIZE
  {
    [if p.content.Baseband? then 0 else p.content.kind, p.count] + p.misc + [p.hi, p.lo]
  }

  function Serialise(p: T2Packet): seq<Byte>
    requires WellFormed(p)
  {
    var b := Header(p) + Payload(p.content);
    b + WordBytes(Crc32(0xffff_ffff, b))
  }

  // ---------------------------------------------------------------------------------------------
  // What one of them does
  // ---------------------------------------------------------------------------------------------

  function DefaultPlp(t: Reframer, c: Content): int
    requires WellFormedContent(c)
  {
    if c.Baseband? && t.defaultPlp < 0 then c.intro[1] else t.defaultPlp
  }

  /** The stream of a frame, or the one selected before. */
  function Stream(t: Reframer, c: Content): int
    requires WellFormedContent(c)
  {
    if c.Baseband? then Select(t.rxs.Keys, DefaultPlp(t, c), c.intro[1]) else t.current
  }

  /** A frame goes to a registered stream, which is in the same mode and finds its checksums right. */
  predicate Accepted(rx: Rx, c: Content)
    requires RxOk(rx) && c.Baseband? && WellFormedContent(c)
  {
    var v := OnHeader(rx.v, c.hem, BbHeader(c.header, c.hem));
    ModeOk(rx, c.hem) && (OnHeaderRegular(rx, c); Fold(v, c.field).ok)
  }

  lemma OnHeaderRegular(rx: Rx, c: Content)
    requires RxOk(rx) && c.Baseband? && WellFormedContent(c) && ModeOk(rx, c.hem)
    ensures RxOk(rx.(v := OnHeader(rx.v, c.hem, BbHeader(c.header, c.hem))))
  {
    hide Crc8;
  }

  function Received(rx: Rx, c: Content): Rx
    requires RxOk(rx) && c.Baseband? && WellFormedContent(c) && Accepted(rx, c)
  {
    OnHeaderRegular(rx, c);
    var r := Fold(OnHeader(rx.v, c.hem, BbHeader(c.header, c.hem)), c.field);
    Rx(r.v, rx.out + r.packets)
  }

  predicate Acceptable(t: Reframer, p: T2Packet)
    requires Ok(t)
  {
    && WellFormed(p) && (t.count >= 0 ==> p.count == (t.count + 1) % 256)
    && Stream(t, p.content) != -1
    && (p.content.Baseband? ==>
          var k := Stream(t, p.content);
          k in t.rxs && RxOk(t.rxs[k]) && Accepted(t.rxs[k], p.content))
  }

  /** The packet is gone; a frame has reached its stream. */
  function After(t: Reframer, p: T2Packet): Reframer
    requires Ok(t) && Acceptable(t, p)
  {
    var k := Stream(t, p.content);
    t.(synced := true, phase := Head([]), crc := 0, count := p.count,
       defaultPlp := DefaultPlp(t, p.content), current := k,
       rxs := if p.content.Baseband? then t.rxs[k := Received(t.rxs[k], p.content)] else t.rxs)
  }

  predicate Between(t: Reframer) {
    Ok(t) && !t.bad && !t.drop && t.phase == Head([])
  }

  /** Behind the header of `p`. */
  function Opened(t: Reframer, p: T2Packet): Reframer
    requires WellFormed(p)
  {
    var left := |Payload(p.content)|;
    t.(synced := true, count := p.count, crc := Crc32(0xffff_ffff, Header(p)),
       phase := if p.content.Baseband? then BbHead(left, []) else PayloadPhase(t, false, left))
  }

  lemma HeaderIn(t: Reframer, p: T2Packet)
    requires Between(t) && Acceptable(t, p)
    ensures FoldT(t, Header(p)) == Opened(t, p) && Ok(Opened(t, p))
  {
    hide FoldT, Crc32, Payload, Accepted, Ok;
    FoldTOk(t, Header(p));
    FoldHead(t, Header(p));
    assert [] + Header(p) == Header(p);
  }

  /** Payload that is not a frame goes by. */
  lemma OtherIn(t: Reframer, p: T2Packet)
    requires Between(t) && Acceptable(t, p) && p.content.Other?
    ensures FoldT(t, Header(p) + p.content.bytes)
            == Opened(t, p).(crc := Crc32(0xffff_ffff, Header(p) + p.content.bytes), phase := Tail(0))
  {
    hide FoldT, Crc32, Accepted, Ok, Header;
    var u, x := Opened(t, p), p.content.bytes;
    HeaderIn(t, p);
    FoldTSplit(t, Header(p), x);
    Crc32Split(0xffff_ffff, Header(p), x);
    if x == [] {
      FoldTNothing(u);
      assert Header(p) + x == Header(p);
    } else {
      FoldOther(u, x);
    }
  }

  /** The sub-header selects the stream of the frame. */
  function Selected(t: Reframer, p: T2Packet): Reframer
    requires Ok(t) && Acceptable(t, p) && p.content.Baseband?
  {
    var c := p.content;
    var k := Stream(t, c);
    Opened(t, p).(crc := Crc32(0xffff_ffff, Header(p) + SubHeader(c)), current := k, defaultPlp := DefaultPlp(t, c),
                  rxs := t.rxs[k := t.rxs[k].(v := OnHeader(t.rxs[k].v, c.hem, BbHeader(c.header, c.hem)))],
                  phase := if |c.field| > 0 then Body(true, |c.field|) else Tail(0))
  }

  lemma ModeOfOwnHeader(header: seq<Byte>, hem: bool)
    requires |header| == 9
    ensures var b := BbHeader(header, hem);
            b[..9] == header && ModeBits(Crc8(0, b[..9]), b[9]) == (if hem then 1 else 0)
  {
    hide Crc8, ModeBits, HeaderCheckByte;
    OwnHeaderCheck(Crc8(0, header), hem);
    assert BbHeader(header, hem)[..9] == header;
  }

  lemma OwnMode(hem: bool)
    ensures var mode: bv8 := if hem then 1 else 0; mode & 0xfe == 0 && (mode == 1 <==> hem)
  {
  }

  /** The lengths in the header are those of the sender. */
  lemma HeaderLengths(header: seq<Byte>, hem: bool)
    requires |header| == 9
    ensures var b := BbHeader(header, hem); forall i :: 0 <= i < 9 ==> b[i] == header[i]
  {
  }

  lemma SubHeaderOfSender(t: Reframer, u: Reframer, p: T2Packet)
    requires Ok(t) && Acceptable(t, p) && p.content.Baseband?
    requires u == Opened(t, p).(phase := Head([]), crc := Crc32(0xffff_ffff, Header(p) + SubHeader(p.content)))
    ensures BbheaderRead(u, SubHeader(p.content), |Payload(p.content)|) == Selected(t, p)
  {
    hide Crc32, Crc8, ModeBits, Ok, Accepted, HeaderCheckByte, Select, OnHeader, BbHeader, Header;
    var c := p.content;
    var b := SubHeader(c);
    var header := BbHeader(c.header, c.hem);
    assert b[3..13] == header;
    assert b[1] == c.intro[1];
    ModeOfOwnHeader(c.header, c.hem);
    OwnMode(c.hem);
    HeaderLengths(c.header, c.hem);
    AcceptedMode(t.rxs[Stream(t, c)], c);
    assert |Payload(c)| == BBHEADER_SIZE + |c.field|;
  }

  lemma AcceptedMode(rx: Rx, c: Content)
    requires RxOk(rx) && c.Baseband? && WellFormedContent(c) && Accepted(rx, c)
    ensures ModeOk(rx, c.hem)
  {
  }

  lemma SubHeaderIn(t: Reframer, p: T2Packet)
    requires Between(t) && Acceptable(t, p) && p.content.Baseband?
    ensures FoldT(t, Header(p) + SubHeader(p.content)) == Selected(t, p) && Ok(Selected(t, p))
  {
    hide FoldT, Crc32, Accepted, Ok, Header, SubHeader, BbheaderRead;
    var u, x := Opened(t, p), SubHeader(p.content);
    HeaderIn(t, p);
    FoldTSplit(t, Header(p), x);
    Crc32Split(0xffff_ffff, Header(p), x);
    FoldTOk(t, Header(p) + x);
    FoldBbHead(u, x);
    assert [] + x == x;
    SubHeaderOfSender(t, u.(phase := Head([]), crc := Crc32(u.crc, x)), p);
  }

  /** The data of a frame reaches its stream. */
  lemma FrameIn(t: Reframer, p: T2Packet)
    requires Between(t) && Acceptable(t, p) && p.content.Baseband?
    ensures var x := Header(p) + Payload(p.content);
            FoldT(t, x) == Opened(t, p).(crc := Crc32(0xffff_ffff, x), phase := Tail(0), current := Stream(t, p.content),
                                         defaultPlp := DefaultPlp(t, p.content),
                                         rxs := t.rxs[Stream(t, p.content) := Received(t.rxs[Stream(t, p.content)], p.content)])
  {
    hide FoldT, Crc32, Ok, Header, SubHeader, BbHeader, Fold, OnHeader;
    var c := p.content;
    var u, h := Selected(t, p), Header(p) + SubHeader(c);
    SubHeaderIn(t, p);
    Associative(Header(p), SubHeader(c), c.field);
    FoldTSplit(t, h, c.field);
    Crc32Split(0xffff_ffff, h, c.field);
    OnHeaderRegular(t.rxs[u.current], c);
    FieldIn(t, u, p);
  }

  lemma FieldIn(t: Reframer, u: Reframer, p: T2Packet)
    requires Between(t) && Acceptable(t, p) && p.content.Baseband? && u == Selected(t, p) && Ok(u)
    ensures FoldT(u, p.content.field)
            == u.(crc := Crc32(u.crc, p.content.field), phase := Tail(0),
                  rxs := t.rxs[u.current := Received(t.rxs[u.current], p.content)])
  {
    hide FoldT, Crc32, Ok, Header, SubHeader, BbHeader, Fold, OnHeader;
    var c := p.content;
    var k, x := u.current, c.field;
    var rx := t.rxs[k];
    OnHeaderRegular(rx, c);
    if x == [] {
      FoldTNothing(u);
      var v := OnHeader(rx.v, c.hem, BbHeader(c.header, c.hem));
      P.FoldNothing(v);
      assert rx.out + [] == rx.out;
      assert Crc32(u.crc, []) == u.crc by { CrcNothing(u.crc); }
    } else {
      UOk(u);
      FoldFrame(u, x);
      assert t.rxs[k := u.rxs[k]][k := Received(rx, c)] == t.rxs[k := Received(rx, c)];
    }
  }

  lemma UOk(u: Reframer)
    requires Ok(u) && u.phase.Body?
    ensures u.current in u.rxs && RxOk(u.rxs[u.current])
  {
  }

  lemma CrcNothing(c: bv32)
    ensures Crc32(c, []) == c
  {
  }

  /** The checksum behind a packet the sender made. */
  lemma TrailerIn(t: Reframer, b: seq<Byte>)
    requires Ok(t) && !t.bad && !t.drop && t.phase == Tail(0) && t.crc == Crc32(0xffff_ffff, b)
    ensures FoldT(t, WordBytes(t.crc)) == t.(phase := Head([]), crc := 0)
  {
    hide FoldT, Crc32, WordBytes, Ok;
    OwnCrcLeavesZero(0xffff_ffff, b);
    Crc32Split(0xffff_ffff, b, WordBytes(t.crc));
    FoldTail(t, WordBytes(t.crc));
  }

  /** One whole packet. */
  lemma OnePacket(t: Reframer, p: T2Packet)
    requires Between(t) && Acceptable(t, p)
    ensures FoldT(t, Serialise(p)) == After(t, p) && Between(After(t, p))
  {
    hide FoldT, Crc32, WordBytes, Ok, Header, SubHeader, Received, Accepted;
    var b := Header(p) + Payload(p.content);
    if p.content.Baseband? { FrameIn(t, p); } else { OtherIn(t, p); }
    FoldTOk(t, b);
    FoldTSplit(t, b, WordBytes(Crc32(0xffff_ffff, b)));
    FoldTOk(t, Serialise(p));
    TrailerIn(FoldT(t, b), b);
  }
}
