/**
 * The T2-MI stream object of neumo-dvb-demux.c: transport packets of the embedding PID are taken
 * apart a piece at a time, and every piece does what its bytes do one by one.
 */
module T2miStreams {
  import opened Bytes
  import opened Crc
  import opened BbFrames
  import opened T2mi

  /** A transport packet as the reframer looks at it; no payload when `payload` is []. */
  datatype Ts = Ts(pid: int, scrambled: bool, pusi: bool, cc: nat, discontinuity: bool, payload: seq<Byte>)

  predicate Bit(b: int, mask: int)
    requires b >= 0 && mask > 0
  {
    b / mask % 2 == 1
  }

  /** An adaptation field leaves room for payload (section 2.4.3.5 of ISO/IEC 13818-1). */
  predicate WellFramed(packet: seq<Byte>) {
    |packet| == TS_SIZE && (Bit(packet[3], 0x20) ==> packet[4] <= 182)
  }

  function PayloadStart(packet: seq<Byte>): (n: nat)
    requires WellFramed(packet)
    ensures 4 <= n < TS_SIZE
  {
    if Bit(packet[3], 0x20) then 5 + packet[4] else 4
  }

  function ParseTs(packet: seq<Byte>): Ts
    requires WellFramed(packet)
  {
    Ts(Be16(packet[1] % 0x20, packet[2]), packet[3] >= 0x40, Bit(packet[1], 0x40), packet[3] % 0x10,
       Bit(packet[3], 0x20) && packet[4] > 0 && Bit(packet[5], 8),
       if Bit(packet[3], 0x10) then packet[PayloadStart(packet)..] else [])
  }

  // ---------------------------------------------------------------------------------------------
  // What a packet does
  // ---------------------------------------------------------------------------------------------

  /** Not for this stream, or of no use while it waits for a packet start. */
  predicate Ignored(t: Reframer, pid: int, ts: Ts) {
    ts.pid != pid || ts.payload == [] || ts.scrambled || (!t.synced && !ts.pusi)
  }

  predicate CcError(t: Reframer, ts: Ts) {
    !ts.discontinuity && t.cc >= 0 && ts.cc != (t.cc + 1) % 16
  }

  predicate PointerOverruns(pusi: bool, payload: seq<Byte>)
    requires payload != []
  {
    pusi && 1 + payload[0] >= |payload|
  }

  /** The part of the payload the reframer reads. */
  function Relevant(synced: bool, pusi: bool, payload: seq<Byte>): seq<Byte>
    requires payload != [] && !PointerOverruns(pusi, payload)
  {
    if !pusi then payload
    else if synced then payload[1..]
    else payload[1 + payload[0]..]
  }

  function OnPayload(t: Reframer, pusi: bool, payload: seq<Byte>): Reframer
    requires Ok(t) && payload != []
  {
    if PointerOverruns(pusi, payload) then t else Whole(FoldT(t, Relevant(t.synced, pusi, payload)))
  }

  function OnPacket(t: Reframer, pid: int, ts: Ts): Reframer
    requires Ok(t) && ts.cc < 16
  {
    if Ignored(t, pid, ts) then t
    else if CcError(t, ts) then ResetAll(t).(ccErrors := t.ccErrors + 1)
    else
      CcOk(t, ts.cc);
      OnPayload(t.(cc := ts.cc), ts.pusi, ts.payload)
  }

  lemma CcOk(t: Reframer, cc: nat)
    requires Ok(t) && cc < 16
    ensures Ok(t.(cc := cc))
  {
    hide RxOk;
  }

  /** The end of a transport packet ends the search for the cause of trouble as well. */
  function Whole(t: Reframer): Reframer {
    t.(drop := false)
  }

  // ---------------------------------------------------------------------------------------------
  // The fields of the stream object, as values
  // ---------------------------------------------------------------------------------------------

  /** `left` and `bbLeft` are what is to come of the payload and of the sub-header. */
  datatype Fields = Fields(
    synced: bool, headerIdx: nat, bbheaderIdx: nat, left: int, bbLeft: int, crcIdx: nat, frame: bool, current: int,
    crc: bv32, count: int, cc: int, defaultPlp: int, crc32Errors: nat, crc8Errors: nat, ccErrors: nat)

  /** t2mi_frame_is_complete */
  predicate FrameIsComplete(left: int, crcIdx: nat, synced: bool) {
    (left == 0 && crcIdx == CRC_SIZE) || !synced
  }

  predicate FieldsOk(f: Fields) {
    && f.crcIdx <= CRC_SIZE && f.headerIdx < HEADER_SIZE && f.bbheaderIdx < BBHEADER_SIZE && f.bbLeft >= 0
    && (f.headerIdx > 0 ==> f.synced && f.crcIdx == 0 && f.crc == 0xffff_ffff)
    && (f.headerIdx > 0 || FrameIsComplete(f.left, f.crcIdx, f.synced) ==> f.left == 0 && f.bbLeft == 0)
    && (f.left != 0 || f.bbLeft > 0 ==> f.crcIdx == 0)
    && (if f.bbLeft > 0 then f.bbLeft + f.bbheaderIdx == BBHEADER_SIZE && f.frame else f.bbheaderIdx == 0)
    && (f.bbLeft == 0 && f.current != -1 ==> f.left >= 0)
  }

  function PhaseOf(f: Fields, b: seq<Byte>): Phase
    requires FieldsOk(f) && |b| == TS_SIZE
  {
    if f.headerIdx > 0 then Head(b[..f.headerIdx])
    else if FrameIsComplete(f.left, f.crcIdx, f.synced) then Head([])
    else if f.bbLeft > 0 then BbHead(f.left + f.bbheaderIdx, b[..f.bbheaderIdx])
    else if f.current == -1 then Lost
    else if f.left > 0 then Body(f.frame, f.left)
    else Tail(f.crcIdx)
  }

  predicate NeedsStream(p: Phase) {
    p.Body? && p.frame
  }

  function ViewOf(f: Fields, b: seq<Byte>, rxs: map<int, Rx>): Reframer
    requires FieldsOk(f) && |b| == TS_SIZE
  {
    var phase := PhaseOf(f, b);
    Reframer(false, false, f.synced, phase, f.count, f.cc, if phase.Head? then 0 else f.crc,
             f.defaultPlp, f.current, rxs, f.crc32Errors, f.crc8Errors, f.ccErrors)
  }

  /** Header bytes have been stored: `h` is what there is of the header now. */
  function HeaderStored(f: Fields, n: nat): Fields {
    f.(synced := true, headerIdx := n, crcIdx := 0, crc := 0xffff_ffff)
  }

  lemma HeaderIncomplete(f: Fields, b: seq<Byte>, x: seq<Byte>, c: seq<Byte>, rxs: map<int, Rx>)
    requires FieldsOk(f) && |b| == TS_SIZE && PhaseOf(f, b).Head? && x != [] && f.headerIdx + |x| < HEADER_SIZE
    requires |c| == TS_SIZE && c[..f.headerIdx + |x|] == b[..f.headerIdx] + x && Ok(ViewOf(f, b, rxs))
    ensures var g := HeaderStored(f, f.headerIdx + |x|);
            FieldsOk(g) && ViewOf(g, c, rxs) == FoldT(ViewOf(f, b, rxs), x) && ViewOf(g, c, rxs).phase.Head?
  {
    hide FoldT, Ok;
    FoldHead(ViewOf(f, b, rxs), x);
    assert PhaseOf(f, b).h == b[..f.headerIdx];
  }

  /** The header is complete, and follows on the one before or not. */
  function HeaderDecoded(f: Fields, h: seq<Byte>): Fields
    requires |h| == HEADER_SIZE
  {
    var g := HeaderStored(f, 0).(frame := h[0] == 0);
    if f.count >= 0 && (f.count + 1) % 256 != h[1] then g
    else g.(count := h[1], left := (Be16(h[4], h[5]) + 7) / 8, bbLeft := if h[0] == 0 then BBHEADER_SIZE else 0,
            bbheaderIdx := 0, crc := Crc32(0xffff_ffff, h))
  }

  lemma HeaderComplete(f: Fields, b: seq<Byte>, x: seq<Byte>, c: seq<Byte>, rxs: map<int, Rx>)
    requires FieldsOk(f) && |b| == TS_SIZE && PhaseOf(f, b).Head? && x != [] && f.headerIdx + |x| == HEADER_SIZE
    requires |c| == TS_SIZE && c[..HEADER_SIZE] == b[..f.headerIdx] + x && Ok(ViewOf(f, b, rxs))
    ensures var g := HeaderDecoded(f, c[..HEADER_SIZE]);
            var t := FoldT(ViewOf(f, b, rxs), x);
            FieldsOk(g) && ViewOf(g, c, rxs) == t && !t.phase.Head? && !NeedsStream(t.phase)
  {
    hide FoldT, Ok, Crc32;
    FoldHead(ViewOf(f, b, rxs), x);
    assert PhaseOf(f, b).h == b[..f.headerIdx];
    var h := c[..HEADER_SIZE];
    var g := HeaderDecoded(f, h);
    assert Be16(h[4], h[5]) >= 0;
    assert FieldsOk(g);
    if g.bbLeft > 0 { assert c[..0] == []; }
  }

  lemma BadSticks(t: Reframer, x: seq<Byte>, y: seq<Byte>)
    requires Ok(t) && !FoldT(t, x + y).bad
    ensures !FoldT(t, x).bad
  {
    hide FoldT;
    FoldTSplit(t, x, y);
    if FoldT(t, x).bad { FoldDrop(FoldT(t, x), y); }
  }

  lemma BbheaderIncomplete(f: Fields, b: seq<Byte>, x: seq<Byte>, c: seq<Byte>, rxs: map<int, Rx>)
    requires FieldsOk(f) && |b| == TS_SIZE && PhaseOf(f, b).BbHead? && |x| < f.bbLeft
    requires |c| == TS_SIZE && c[..f.bbheaderIdx + |x|] == b[..f.bbheaderIdx] + x && Ok(ViewOf(f, b, rxs))
    ensures var g := f.(bbheaderIdx := f.bbheaderIdx + |x|, left := f.left - |x|, bbLeft := f.bbLeft - |x|);
            FieldsOk(g) && ViewOf(g, c, rxs) == FoldT(ViewOf(f, b, rxs), x) && ViewOf(g, c, rxs).phase.BbHead? && !ViewOf(g, c, rxs).drop
  {
    hide FoldT, Ok, AfterBbheader;
    if x == [] {
      FoldTNothing(ViewOf(f, b, rxs));
      assert b[..f.bbheaderIdx] + x == b[..f.bbheaderIdx];
    } else {
      FoldBbHead(ViewOf(f, b, rxs), x);
    }
  }

  /** The reframer between a header and what follows it. */
  function Behind(f: Fields, rxs: map<int, Rx>): Reframer {
    Reframer(false, false, true, Head([]), f.count, f.cc, f.crc, f.defaultPlp, f.current, rxs,
             f.crc32Errors, f.crc8Errors, f.ccErrors)
  }

  lemma BbheaderComplete(f: Fields, b: seq<Byte>, x: seq<Byte>, c: seq<Byte>, rxs: map<int, Rx>)
    requires FieldsOk(f) && |b| == TS_SIZE && PhaseOf(f, b).BbHead? && x != [] && |x| == f.bbLeft
    requires |c| == TS_SIZE && c[..BBHEADER_SIZE] == b[..f.bbheaderIdx] + x && Ok(ViewOf(f, b, rxs))
    ensures var h := c[..BBHEADER_SIZE];
            FoldT(ViewOf(f, b, rxs), x) == BbheaderRead(Behind(f.(crc := Crc32(f.crc, h)), rxs), h, f.left - |x| + BBHEADER_SIZE)
  {
    hide FoldT, Ok, BbheaderRead;
    FoldBbHead(ViewOf(f, b, rxs), x);
  }

  /** A stream that has received nothing. */
  function Started(rxs: map<int, Rx>): Reframer {
    Reframer(false, false, false, Head([]), -1, -1, 0, -1, -1, rxs, 0, 0, 0)
  }

  function NewRxs(keys: set<int>): (rxs: map<int, Rx>)
    ensures rxs.Keys == keys && forall k :: k in keys ==> rxs[k] == Rx(FreshState(), [])
  {
    map k | k in keys :: Rx(FreshState(), [])
  }

  function IdleFields(): Fields {
    Fields(false, 0, 0, 0, 0, 0, false, -1, 0, -1, -1, -1, 0, 0, 0)
  }

  lemma Idle(b: seq<Byte>, rxs: map<int, Rx>)
    requires |b| == TS_SIZE && forall k :: k in rxs ==> RxOk(rxs[k])
    ensures FieldsOk(IdleFields()) && ViewOf(IdleFields(), b, rxs) == Started(rxs) && Ok(Started(rxs))
  {
    hide RxOk;
  }

  lemma BbheaderBehind(t: Reframer, h: seq<Byte>, left: int)
    requires |h| == BBHEADER_SIZE
    ensures var r := BbheaderRead(t, h, left); !r.bad && !r.drop ==> !r.phase.Head? && !r.phase.BbHead?
  {
    hide ResetAll, Crc8, ModeBits, OnHeader;
  }

  function ResetFields(f: Fields): Fields {
    Fields(false, 0, 0, 0, 0, 0, false, -1, 0, -1, -1, f.defaultPlp, f.crc32Errors, f.crc8Errors, f.ccErrors)
  }

  lemma ResetView(f: Fields, b: seq<Byte>, rxs: map<int, Rx>, t: Reframer)
    requires |b| == TS_SIZE && !t.bad && !t.drop && t.defaultPlp == f.defaultPlp && t.rxs == rxs
    requires t.crc32Errors == f.crc32Errors && t.crc8Errors == f.crc8Errors && t.ccErrors == f.ccErrors
    ensures FieldsOk(ResetFields(f)) && ViewOf(ResetFields(f), b, ResetRxs(rxs)) == ResetAll(t)
    ensures Ok(ResetAll(t))
  {
    hide RxOk, ResetRxs;
    ResetRxsOk(t);
  }

  lemma ResetForgets(t: Reframer, u: Reframer, k: int)
    requires k in t.rxs && k in u.rxs && u == t.(rxs := t.rxs[k := u.rxs[k]]) && u.rxs[k].out == t.rxs[k].out
    ensures ResetAll(u) == ResetAll(t)
  {
    assert ResetRxs(u.rxs) == ResetRxs(t.rxs);
  }

  lemma NobodyRegistered(t: Reframer, hem: bool, header: seq<Byte>, left: int)
    requires |header| == 10 && t.current == -1
    ensures FrameBegins(t, hem, header, left) == t.(phase := Lost)
  {
  }

  /** BbheaderRead, from the selection of the stream on; `left` bytes of payload follow. */
  function SubHeaderRead(t: Reframer, hem: bool, plp: Byte, header: seq<Byte>, left: int): Reframer
    requires |header| == 10
  {
    var defaultPlp := if t.defaultPlp < 0 then plp else t.defaultPlp;
    FrameBegins(t.(defaultPlp := defaultPlp, current := Select(t.rxs.Keys, defaultPlp, plp)), hem, header, left + BBHEADER_SIZE)
  }

  /** Behind the sub-header, with stream `k` selected. */
  lemma FrameStarts(f: Fields, c: seq<Byte>, rxs: map<int, Rx>)
    requires |c| == TS_SIZE && f.synced && f.headerIdx == 0 && f.bbheaderIdx == 0 && f.bbLeft == 0 && f.crcIdx == 0 && f.frame
    requires f.current != -1 ==> f.left >= 0
    ensures FieldsOk(f)
    ensures ViewOf(f, c, rxs) == Behind(f, rxs).(phase := if f.current == -1 then Lost else if f.left > 0 then Body(true, f.left) else Tail(0))
  {
  }

  /** Phases, read off the fields. */
  lemma PhaseParts(f: Fields, b: seq<Byte>)
    requires FieldsOk(f) && |b| == TS_SIZE
    ensures PhaseOf(f, b).Head? <==> f.headerIdx > 0 || FrameIsComplete(f.left, f.crcIdx, f.synced)
    ensures !PhaseOf(f, b).Head? ==> (PhaseOf(f, b).BbHead? <==> f.bbLeft > 0)
    ensures !PhaseOf(f, b).Head? && !PhaseOf(f, b).BbHead? ==>
              && (PhaseOf(f, b).Lost? <==> f.current == -1)
              && (f.current != -1 && f.left > 0 ==> PhaseOf(f, b) == Body(f.frame, f.left))
              && (f.current != -1 && f.left <= 0 ==> f.left == 0 && f.crcIdx < CRC_SIZE && PhaseOf(f, b) == Tail(f.crcIdx))
    ensures PhaseOf(f, b).Body? ==> f.current != -1 && PhaseOf(f, b) == Body(f.frame, f.left)
    ensures PhaseOf(f, b).Tail? ==> f.current != -1 && PhaseOf(f, b) == Tail(f.crcIdx) && f.left == 0 && f.crcIdx < CRC_SIZE
  {
  }

  lemma Unsynced(f: Fields)
    requires FieldsOk(f) && !f.synced
    ensures f.headerIdx == 0
  {
  }

  lemma ResetCounted(t: Reframer)
    ensures ResetAll(t.(ccErrors := t.ccErrors + 1)) == ResetAll(t).(ccErrors := t.ccErrors + 1)
  {
  }

  lemma ReachedIs(t: Reframer, x: seq<Byte>, p: nat, u: Reframer)
    requires Reached(t, x, p, u)
    ensures Ok(t) && p <= |x| && u == FoldT(t, x[..p])
  {
  }

  /** Payload is used up. */
  function Taken(f: Fields, x: seq<Byte>): Fields {
    f.(left := f.left - |x|, crc := Crc32(f.crc, x))
  }

  /** What the streams have received after `x`. */
  function Handed(rxs: map<int, Rx>, k: int, x: seq<Byte>): map<int, Rx>
    requires k in rxs && Regular(rxs[k].v)
  {
    var r := Fold(rxs[k].v, x);
    rxs[k := Rx(r.v, rxs[k].out + r.packets)]
  }

  lemma OtherTaken(f: Fields, b: seq<Byte>, x: seq<Byte>, rxs: map<int, Rx>)
    requires FieldsOk(f) && |b| == TS_SIZE && PhaseOf(f, b) == Body(false, f.left) && x != [] && |x| <= f.left
    requires Ok(ViewOf(f, b, rxs))
    ensures FieldsOk(Taken(f, x)) && ViewOf(Taken(f, x), b, rxs) == FoldT(ViewOf(f, b, rxs), x)
    ensures var p := FoldT(ViewOf(f, b, rxs), x).phase; !NeedsStream(p) && (p.Body? || p.Tail?)
  {
    hide FoldT, Ok, Crc32;
    FoldOther(ViewOf(f, b, rxs), x);
  }

  lemma FrameTaken(f: Fields, b: seq<Byte>, x: seq<Byte>, rxs: map<int, Rx>)
    requires FieldsOk(f) && |b| == TS_SIZE && PhaseOf(f, b) == Body(true, f.left) && x != [] && |x| <= f.left
    requires Ok(ViewOf(f, b, rxs)) && !FoldT(ViewOf(f, b, rxs), x).bad
    ensures f.current in rxs && RxOk(rxs[f.current]) && Fold(rxs[f.current].v, x).ok
    ensures !rxs[f.current].v.hem ==> |x| <= rxs[f.current].v.left
    ensures FieldsOk(Taken(f, x)) && ViewOf(Taken(f, x), b, Handed(rxs, f.current, x)) == FoldT(ViewOf(f, b, rxs), x)
    ensures var p := FoldT(ViewOf(f, b, rxs), x).phase; p.Body? || p.Tail?
  {
    hide FoldT, Fold, Crc32, RxOk;
    FoldFrame(ViewOf(f, b, rxs), x);
    assert RxOk(rxs[f.current]);
  }

  /** Bytes of the checksum are used up. */
  function Checked(f: Fields, x: seq<Byte>): Fields {
    var g := f.(crcIdx := f.crcIdx + |x|, crc := Crc32(f.crc, x));
    if g.crcIdx == CRC_SIZE && g.crc != 0 then g.(crc32Errors := g.crc32Errors + 1) else g
  }

  lemma CrcTaken(f: Fields, b: seq<Byte>, x: seq<Byte>, rxs: map<int, Rx>)
    requires FieldsOk(f) && |b| == TS_SIZE && PhaseOf(f, b).Tail? && x != [] && f.crcIdx + |x| <= CRC_SIZE
    requires Ok(ViewOf(f, b, rxs))
    ensures FieldsOk(Checked(f, x)) && ViewOf(Checked(f, x), b, rxs) == FoldT(ViewOf(f, b, rxs), x)
    ensures !NeedsStream(FoldT(ViewOf(f, b, rxs), x).phase)
  {
    hide FoldT, Ok, Crc32;
    FoldTail(ViewOf(f, b, rxs), x);
  }

  /** The state `t` has been reached behind the first `p` bytes of `x`. */
  ghost predicate Reached(t0: Reframer, x: seq<Byte>, p: int, t: Reframer) {
    0 <= p <= |x| && Ok(t0) && !FoldT(t0, x).bad && t == FoldT(t0, x[..p]) && Ok(t)
  }

  lemma ReachedStart(t: Reframer, x: seq<Byte>)
    requires Ok(t) && !FoldT(t, x).bad
    ensures Reached(t, x, 0, t)
  {
    hide FoldT, Ok;
    FoldTNothing(t);
    assert x[..0] == [];
  }

  lemma ReachedRest(t0: Reframer, x: seq<Byte>, p: nat, t: Reframer)
    requires Reached(t0, x, p, t)
    ensures p <= |x| && Ok(t) && FoldT(t0, x) == FoldT(t, x[p..]) && !FoldT(t, x[p..]).bad && !t.bad
  {
    hide FoldT, Ok;
    FoldTSplit(t0, x[..p], x[p..]);
    assert x[..p] + x[p..] == x;
    BadSticks(t0, x[..p], x[p..]);
  }

  lemma ReachedMore(t0: Reframer, x: seq<Byte>, p: nat, t: Reframer, n: nat)
    requires Reached(t0, x, p, t) && p + n <= |x|
    ensures Ok(t) && Reached(t0, x, p + n, FoldT(t, x[p..][..n]))
    ensures !FoldT(t, x[p..][..n]).bad
  {
    hide FoldT, Ok;
    FoldTSplit(t0, x[..p], x[p..][..n]);
    FoldTOk(t, x[p..][..n]);
    assert x[..p] + x[p..][..n] == x[..p + n];
    ReachedRest(t0, x, p, t);
    assert x[p..][..n] + x[p..][n..] == x[p..];
    BadSticks(t, x[p..][..n], x[p..][n..]);
  }

  /** Nothing more happens to the rest of the packet. */
  lemma ReachedEnd(t0: Reframer, x: seq<Byte>, p: nat, t: Reframer)
    requires Reached(t0, x, p, t) && (p == |x| || t.drop || t.phase.Lost?)
    ensures Ok(t0) && FoldT(t0, x) == t
  {
    hide FoldT, Ok;
    ReachedRest(t0, x, p, t);
    if p == |x| {
      FoldTNothing(t);
      assert x[p..] == [];
    } else {
      FoldDrop(t, x[p..]);
    }
  }

  // ---------------------------------------------------------------------------------------------
  // The stream object
  // ---------------------------------------------------------------------------------------------

  class T2miStream {
    const embeddingPid: int
    const bbfStreams: map<int, BbframesStream>
    const buff: array<Byte>

    var packetCount: int
    var ccCounter: int
    var currentBbf: BbframesStream?

    var defaultIsi: int
    var packetType: int
    var crcIdx: nat
    var synced: bool
    var t2miCrc32: bv32
    var t2miPayloadBytesLeft: int
    var bbheaderBytesLeft: int
    var headerIdx: nat
    var bbheaderIdx: nat
    var numCcErrors: nat
    var numCrc8Errors: nat
    var numCrc32Errors: nat

    /** Where `currentBbf` is registered, and what the streams have received. */
    ghost var current: int
    ghost var rxs: map<int, Rx>

    /** The streams and their buffers. */
    ghost const repr: set<object>

    ghost predicate Separate() {
      && this !in repr && buff !in repr && -1 !in bbfStreams
      && (forall k :: k in bbfStreams ==> bbfStreams[k] in repr && bbfStreams[k].buff in repr)
      && (forall j, k :: j in bbfStreams && k in bbfStreams && j != k ==>
            bbfStreams[j] != bbfStreams[k] && bbfStreams[j].buff != bbfStreams[k].buff)
    }

    /** What stream `k` has received. */
    ghost predicate One(k: int, rx: Rx)
      requires k in bbfStreams
      reads bbfStreams[k], bbfStreams[k].buff
    {
      bbfStreams[k].Shows(rx.v, rx.out)
    }

    ghost predicate Shows(rxs: map<int, Rx>)
      reads repr
    {
      && rxs.Keys == bbfStreams.Keys
      && forall k :: k in bbfStreams ==> bbfStreams[k] in repr && bbfStreams[k].buff in repr && One(k, rxs[k])
    }

    ghost function Now(): Fields
      reads this
    {
      Fields(synced, headerIdx, bbheaderIdx, t2miPayloadBytesLeft, bbheaderBytesLeft, crcIdx, packetType == 0, current,
             t2miCrc32, packetCount, ccCounter, defaultIsi, numCrc32Errors, numCrc8Errors, numCcErrors)
    }

    ghost function Buffer(): (b: seq<Byte>)
      reads buff
      ensures |b| == buff.Length
    {
      buff[..]
    }

    lemma BufferIs()
      ensures Buffer() == buff[..]
    {
    }

    /** What the registered streams are, and which of them is selected. */
    ghost predicate Linked()
      reads `currentBbf, `current, `rxs, repr
    {
      && buff.Length == TS_SIZE && Separate() && Shows(rxs) && rxs.Keys == bbfStreams.Keys
      && if currentBbf == null then current == -1 else current in bbfStreams && bbfStreams[current] == currentBbf
    }

    /** The selected stream has packets of the one size the extractor is prepared for. */
    ghost predicate Prepared()
      reads `currentBbf, repr
    {
      currentBbf != null && currentBbf in repr ==> currentBbf.upl == TS_SIZE
    }

    ghost predicate Valid()
      reads this, buff, repr
    {
      && Linked() && FieldsOk(Now()) && Ok(ViewOf(Now(), Buffer(), rxs))
      && (NeedsStream(PhaseOf(Now(), Buffer())) ==> Prepared())
    }

    ghost function View(): Reframer
      requires Valid()
      reads this, buff, repr
    {
      ViewOf(Now(), Buffer(), rxs)
    }

    lemma ValidParts()
      requires Valid()
      ensures Linked() && Separate() && buff.Length == TS_SIZE && FieldsOk(Now()) && Ok(View()) && View() == ViewOf(Now(), Buffer(), rxs)
      ensures View().phase == PhaseOf(Now(), Buffer())
      ensures NeedsStream(View().phase) ==> Prepared()
      ensures !View().drop && !View().bad && View().current == current && View().synced == synced && View().cc == ccCounter
      ensures View().defaultPlp == defaultIsi && View().rxs == rxs && View().ccErrors == numCcErrors
      ensures View().crc32Errors == numCrc32Errors && View().crc8Errors == numCrc8Errors
    {
      hide Shows, FieldsOk, Ok, PhaseOf, Buffer, Prepared;
    }

    lemma SeparateParts()
      requires Separate()
      ensures this !in repr && buff !in repr
    {
    }

    lemma LinkedParts()
      requires Linked()
      ensures buff.Length == TS_SIZE && this !in repr && buff !in repr && (currentBbf == null <==> current == -1)
      ensures currentBbf != null ==> currentBbf in repr && currentBbf.buff in repr && current in rxs
    {
    }

    lemma Output(k: int)
      requires Valid() && k in bbfStreams
      ensures k in rxs && bbfStreams[k].output == rxs[k].out
    {
      assert One(k, rxs[k]);
    }

    /** The object shows the state `t`. */
    lemma Settled(t: Reframer)
      requires Linked() && FieldsOk(Now()) && Ok(t) && t == ViewOf(Now(), Buffer(), rxs)
      requires NeedsStream(t.phase) ==> Prepared()
      ensures Valid() && View() == t
    {
      hide Linked, Now, FieldsOk, Ok, PhaseOf, Buffer, Prepared;
    }

    /** t2mi_stream_init */
    constructor (pid: int, streams: map<int, BbframesStream>)
      requires -1 !in streams && forall k :: k in streams ==> streams[k].New()
      requires forall j, k :: j in streams && k in streams && j != k ==>
                 streams[j] != streams[k] && streams[j].buff != streams[k].buff
      ensures Linked() && Now() == IdleFields()
      ensures fresh(buff) && embeddingPid == pid && bbfStreams == streams
      ensures rxs == NewRxs(streams.Keys)
      ensures repr == (set k | k in streams :: streams[k]) + (set k | k in streams :: streams[k].buff)
    {
      hide NewRxs, BbframesStream.Shows;
      embeddingPid, bbfStreams, buff := pid, streams, new Byte[TS_SIZE];
      repr := (set k | k in streams :: streams[k]) + (set k | k in streams :: streams[k].buff);
      packetCount, ccCounter, currentBbf, current := -1, -1, null, -1;
      defaultIsi, packetType, crcIdx, synced, t2miCrc32 := -1, -1, 0, false, 0;
      t2miPayloadBytesLeft, bbheaderBytesLeft, headerIdx, bbheaderIdx := 0, 0, 0, 0;
      numCcErrors, numCrc8Errors, numCrc32Errors := 0, 0, 0;
      rxs := NewRxs(streams.Keys);
    }

    lemma AtStart()
      requires Linked() && Now() == IdleFields() && buff.Length == TS_SIZE && forall k :: k in rxs ==> RxOk(rxs[k])
      ensures Valid() && View() == Started(rxs)
    {
      hide Linked, Valid, View, Buffer, ViewOf, Ok, FieldsOk;
      Idle(Buffer(), rxs);
      Settled(Started(rxs));
    }

    method ResetOne(k: int, ghost rx: Rx)
      requires k in bbfStreams && One(k, rx)
      modifies bbfStreams[k]
      ensures One(k, rx.(v := FreshState()))
    {
      bbfStreams[k].Reset();
    }

    /** The loop over the registered streams in embedded_stream_reset; their order does not matter. */
    method ResetStreams()
      requires Separate() && Shows(rxs)
      modifies `rxs, repr
      ensures Shows(rxs) && rxs == ResetRxs(old(rxs)) && rxs.Keys == bbfStreams.Keys
    {
      hide One;
      var keys: set<int> := bbfStreams.Keys;
      while keys != {}
        invariant keys <= bbfStreams.Keys && rxs == old(rxs)
        invariant forall k :: k in bbfStreams && k in keys ==> One(k, rxs[k])
        invariant forall k :: k in bbfStreams && k !in keys ==> One(k, rxs[k].(v := FreshState()))
        decreases |keys|
      {
        var k: int :| k in keys;
        ResetOne(k, rxs[k]);
        keys := keys - {k};
      }
      rxs := ResetRxs(rxs);
    }

    /** embedded_stream_reset, not full. */
    method EmbeddedReset()
      requires Separate() && Shows(rxs)
      modifies `packetCount, `ccCounter, `currentBbf, `current, `rxs, repr
      ensures Shows(rxs) && rxs == ResetRxs(old(rxs)) && rxs.Keys == bbfStreams.Keys
      ensures packetCount == -1 && ccCounter == -1 && currentBbf == null && current == -1
    {
      hide Shows, ResetRxs;
      packetCount, ccCounter, currentBbf, current := -1, -1, null, -1;
      ResetStreams();
    }

    method ResetFraming()
      modifies `packetType, `crcIdx, `synced, `t2miCrc32, `t2miPayloadBytesLeft, `bbheaderBytesLeft, `headerIdx, `bbheaderIdx
      ensures packetType == -1 && crcIdx == 0 && !synced && t2miCrc32 == 0
      ensures t2miPayloadBytesLeft == 0 && bbheaderBytesLeft == 0 && headerIdx == 0 && bbheaderIdx == 0
    {
      packetType, crcIdx, synced, t2miCrc32 := -1, 0, false, 0;
      t2miPayloadBytesLeft, bbheaderBytesLeft, headerIdx, bbheaderIdx := 0, 0, 0, 0;
    }

    /** t2mi_stream_reset, not full. */
    method Reset(ghost t: Reframer)
      requires Linked()
      requires !t.bad && !t.drop && t.defaultPlp == defaultIsi && t.rxs == rxs
      requires t.crc32Errors == numCrc32Errors && t.crc8Errors == numCrc8Errors && t.ccErrors == numCcErrors
      modifies `packetCount, `ccCounter, `currentBbf, `current, `rxs, repr,
               `packetType, `crcIdx, `synced, `t2miCrc32, `t2miPayloadBytesLeft, `bbheaderBytesLeft, `headerIdx, `bbheaderIdx
      ensures Valid() && View() == ResetAll(t) && Now() == ResetFields(old(Now()))
    {
      hide Shows, ResetRxs, ViewOf, ResetAll, Ok, Valid, View;
      ghost var f := Now();
      ResetView(f, Buffer(), rxs, t);
      EmbeddedReset();
      ResetFraming();
      Settled(ResetAll(t));
    }

    /** memcpy into the header buffer. */
    method Store(at: nat, x: seq<Byte>)
      requires at + |x| <= buff.Length
      modifies buff
      ensures Buffer()[..at + |x|] == old(Buffer()[..at]) + x
    {
      forall i | 0 <= i < |x| { buff[at + i] := x[i]; }
    }

    /** The first part of get_t2mi_packet_header; `synced` is set behind its call whatever comes of it. */
    method StoreHeader(x: seq<Byte>)
      requires buff.Length == TS_SIZE && FieldsOk(Now()) && headerIdx + |x| <= HEADER_SIZE
      modifies `crcIdx, `t2miCrc32, `headerIdx, `synced, buff
      ensures Now() == HeaderStored(old(Now()), old(headerIdx) + |x|)
      ensures Buffer()[..headerIdx] == old(Buffer()[..headerIdx]) + x
    {
      hide Buffer;
      Store(headerIdx, x);
      if headerIdx == 0 {
        crcIdx := 0;
        t2miCrc32 := 0xffff_ffff;
      }
      headerIdx := headerIdx + |x|;
      synced := true;
    }

    /** The six bytes of a packet header, once they are there; not `follows` is the protocol violation. */
    method DecodePacketHeader(h: seq<Byte>) returns (follows: bool)
      requires |h| == HEADER_SIZE && synced && crcIdx == 0 && t2miCrc32 == 0xffff_ffff
      modifies `headerIdx, `packetType, `packetCount, `t2miPayloadBytesLeft, `bbheaderBytesLeft, `bbheaderIdx, `t2miCrc32
      ensures headerIdx == 0 && packetType == h[0]
      ensures follows == (old(packetCount) < 0 || (old(packetCount) + 1) % 256 == h[1])
      ensures !follows ==> unchanged(`packetCount, `t2miPayloadBytesLeft, `bbheaderBytesLeft, `bbheaderIdx, `t2miCrc32)
      ensures follows ==>
                && packetCount == h[1] && t2miPayloadBytesLeft == (Be16(h[4], h[5]) + 7) / 8
                && bbheaderBytesLeft == (if h[0] == 0 then BBHEADER_SIZE else 0) && bbheaderIdx == 0
                && t2miCrc32 == Crc32(old(t2miCrc32), h)
    {
      hide Crc32, Be16;
      headerIdx := 0;
      packetType := h[0];
      if packetCount >= 0 && (packetCount + 1) % 256 != h[1] {
        return false;
      }
      packetCount := h[1];
      t2miPayloadBytesLeft := (Be16(h[4], h[5]) + 7) / 8;
      bbheaderBytesLeft := if packetType == 0 then BBHEADER_SIZE else 0;
      bbheaderIdx := 0;
      t2miCrc32 := ExtendCrc32(t2miCrc32, h);
      follows := true;
    }

    method CompleteHeader(h: seq<Byte>, ghost f: Fields)
      requires |h| == HEADER_SIZE && Now() == HeaderStored(f, HEADER_SIZE) && f.bbheaderIdx == 0
      modifies `headerIdx, `packetType, `packetCount, `t2miPayloadBytesLeft, `bbheaderBytesLeft, `bbheaderIdx, `t2miCrc32
      ensures Now() == HeaderDecoded(f, h)
    {
      hide Crc32, Be16;
      var follows := DecodePacketHeader(h);
    }

    /**
     * get_t2mi_packet_header: bytes of the header at the front of `x`. Not complete, the end of the
     * transport packet has been reached.
     */
    method GetPacketHeader(x: seq<Byte>) returns (complete: bool, num: nat)
      requires Valid() && View().phase.Head? && x != []
      modifies `crcIdx, `t2miCrc32, `headerIdx, `packetType, `synced, `packetCount,
               `t2miPayloadBytesLeft, `bbheaderBytesLeft, `bbheaderIdx, buff
      ensures Valid() && 0 < num <= |x| && (!complete ==> num == |x|)
      ensures View() == FoldT(old(View()), x[..num])
      ensures complete ==> !View().phase.Head?
    {
      hide FoldT, Crc32, ResetAll, Ok, Linked, Separate, ViewOf, HeaderDecoded, Be16, Valid, View, Buffer, Prepared;
      ValidParts();
      assert buff !in repr && this !in repr by { SeparateParts(); }
      num := Min(|x|, HEADER_SIZE - headerIdx);
      ghost var f, b, y := Now(), Buffer(), x[..num];
      FoldTOk(View(), y);
      StoreHeader(x[..num]);
      complete := headerIdx == HEADER_SIZE;
      if complete {
        HeaderComplete(f, b, y, Buffer(), rxs);
        var h := buff[..HEADER_SIZE];
        assert h == Buffer()[..HEADER_SIZE] by { BufferIs(); }
        CompleteHeader(h, f);
      } else {
        HeaderIncomplete(f, b, y, Buffer(), rxs);
      }
      Settled(FoldT(old(View()), y));
    }

    /** The first part of get_t2mi_bbheader. */
    method StoreBbheader(x: seq<Byte>)
      requires buff.Length == TS_SIZE && bbheaderIdx + |x| <= BBHEADER_SIZE
      modifies `bbheaderIdx, `bbheaderBytesLeft, `t2miPayloadBytesLeft, buff
      ensures bbheaderIdx == old(bbheaderIdx) + |x|
      ensures bbheaderBytesLeft == old(bbheaderBytesLeft) - |x| && t2miPayloadBytesLeft == old(t2miPayloadBytesLeft) - |x|
      ensures Buffer()[..bbheaderIdx] == old(Buffer()[..bbheaderIdx]) + x
    {
      hide Buffer;
      Store(bbheaderIdx, x);
      bbheaderBytesLeft := bbheaderBytesLeft - |x|;
      t2miPayloadBytesLeft := t2miPayloadBytesLeft - |x|;
      bbheaderIdx := bbheaderIdx + |x|;
    }

    /** The stream of a physical layer pipe: its own, or for the first pipe seen the one registered for any. */
    method SelectStream(plp: Byte)
      requires Linked()
      modifies `defaultIsi, `currentBbf, `current
      ensures Linked() && defaultIsi == (if old(defaultIsi) < 0 then plp else old(defaultIsi))
      ensures current == Select(rxs.Keys, defaultIsi, plp)
    {
      hide Shows;
      if defaultIsi < 0 {
        defaultIsi := plp;
      }
      if plp in bbfStreams {
        currentBbf, current := bbfStreams[plp], plp;
      } else if plp == defaultIsi && UNSPECIFIED_PLP in bbfStreams {
        currentBbf, current := bbfStreams[UNSPECIFIED_PLP], UNSPECIFIED_PLP;
      } else {
        currentBbf, current := null, -1;
      }
    }

    /** The call of parse_bbheader. */
    method ParseHeader(hem: bool, isi: int, header: seq<Byte>)
      requires Linked() && |header| == 10 && currentBbf != null && current in rxs && ModeOk(rxs[current], hem)
      modifies `rxs, currentBbf
      ensures Linked() && currentBbf == old(currentBbf) && current == old(current)
      ensures rxs == old(rxs)[current := old(rxs)[current].(v := OnHeader(old(rxs)[current].v, hem, header))]
      ensures 0 <= currentBbf.bbfPayloadBytesLeft == Be16(header[4], header[5]) / 8
      ensures (!hem ==> Be16(header[2], header[3]) / 8 == TS_SIZE) ==> Prepared()
    {
      hide BbframesStream.Valid, BbframesStream.View;
      assert One(current, rxs[current]);
      ghost var rx := rxs[current].(v := OnHeader(rxs[current].v, hem, header));
      currentBbf.ParseBbheader(hem, isi, header);
      assert One(current, rx);
      hide One;
      rxs := rxs[current := rx];
    }

    /** From parse_bbheader on. */
    method BeginFrame(hem: bool, isi: int, header: seq<Byte>, ghost t: Reframer, ghost r: Reframer) returns (ok: bool)
      requires Linked() && |header| == 10 && currentBbf != null && current in rxs && t == Behind(Now(), rxs)
      requires synced && headerIdx == 0 && bbheaderIdx == 0 && bbheaderBytesLeft == 0 && crcIdx == 0 && packetType == 0
      requires r == FrameBegins(t, hem, header, t2miPayloadBytesLeft + BBHEADER_SIZE) && !r.bad && Ok(r)
      modifies this, repr
      ensures Valid() && ok == !r.drop && View() == Whole(r)
    {
      hide Linked, Valid, View, Prepared, Buffer, ViewOf, Ok, FieldsOk, OnHeader, Be16, ResetRxs;
      LinkedParts();
      ghost var rxs0 := rxs;
      ParseHeader(hem, isi, header);
      if currentBbf.bbfPayloadBytesLeft > t2miPayloadBytesLeft {
        ResetForgets(t, Behind(Now(), rxs), current);
        Reset(Behind(Now(), rxs));
        return false;
      }
      FrameStarts(Now(), Buffer(), rxs);
      Settled(r);
      ok := true;
    }

    /** The rest of get_t2mi_bbheader, for the stream the sub-header names. */
    method StartFrame(hem: bool, plp: Byte, isi: int, header: seq<Byte>, ghost t: Reframer, ghost r: Reframer) returns (ok: bool)
      requires Linked() && |header| == 10 && t == Behind(Now(), rxs)
      requires synced && headerIdx == 0 && bbheaderIdx == 0 && bbheaderBytesLeft == 0 && crcIdx == 0 && packetType == 0
      requires r == SubHeaderRead(t, hem, plp, header, t2miPayloadBytesLeft) && !r.bad && Ok(r)
      modifies this, repr
      ensures Valid() && ok == !r.drop && View() == Whole(r)
    {
      hide Linked, Valid, View, Prepared, Buffer, ViewOf, Ok, FieldsOk, OnHeader, ResetAll, Be16, FrameBegins, Select;
      SelectStream(plp);
      LinkedParts();
      assert r == FrameBegins(Behind(Now(), rxs), hem, header, t2miPayloadBytesLeft + BBHEADER_SIZE);
      if currentBbf == null {
        NobodyRegistered(Behind(Now(), rxs), hem, header, t2miPayloadBytesLeft + BBHEADER_SIZE);
        FrameStarts(Now(), Buffer(), rxs);
        Settled(r);
        return true;
      }
      ok := BeginFrame(hem, isi, header, Behind(Now(), rxs), r);
    }

    /** The complete sub-header: checksum, mode, and the start of the frame. */
    method ReadBbheader(h: seq<Byte>, ghost t: Reframer, ghost r: Reframer) returns (ok: bool)
      requires Linked() && |h| == BBHEADER_SIZE && t == Behind(Now().(crc := Crc32(t2miCrc32, h)), rxs)
      requires synced && headerIdx == 0 && bbheaderBytesLeft == 0 && crcIdx == 0 && packetType == 0
      requires r == BbheaderRead(t, h, t2miPayloadBytesLeft + BBHEADER_SIZE) && !r.bad && Ok(r)
      modifies this, repr
      ensures Valid() && ok == !r.drop && View() == Whole(r)
    {
      hide Linked, Valid, View, Prepared, Buffer, ViewOf, Ok, FieldsOk, Be16, FrameBegins, Select, Crc32, Crc8, ModeBits, ResetRxs;
      LinkedParts();
      t2miCrc32 := ExtendCrc32(t2miCrc32, h);
      var plp := h[1];
      bbheaderIdx := 0;
      var header := h[3..];
      assert header == h[3..13];
      var crc := ExtendCrc8(0, header[..9]);
      var hemMode := ModeBits(crc, header[9]);
      if hemMode & 0xfe != 0 {
        numCrc8Errors := numCrc8Errors + 1;
        Reset(Behind(Now(), rxs));
        return false;
      }
      ok := StartFrame(hemMode == 1, plp, header[1], header, Behind(Now(), rxs), r);
    }

    /**
     * get_t2mi_bbheader: bytes of the sub-header at the front of `x`. Not `ok` stands for the NULL
     * the source returns, after which the rest of the transport packet is dropped.
     */
    method GetBbheader(x: seq<Byte>) returns (complete: bool, ok: bool, num: nat)
      requires Valid() && View().phase.BbHead? && !FoldT(View(), x).bad
      modifies this, buff, repr
      ensures Valid() && num <= |x| && (x != [] ==> 0 < num) && (!complete ==> ok && num == |x|)
      ensures !FoldT(old(View()), x[..num]).bad && View() == Whole(FoldT(old(View()), x[..num]))
      ensures ok == !FoldT(old(View()), x[..num]).drop
      ensures ok && complete ==> !View().phase.Head? && !View().phase.BbHead?
    {
      hide FoldT, Crc32, ResetAll, Ok, Linked, Separate, ViewOf, BbheaderRead, Be16, Valid, View, Buffer, Prepared, Select, FrameBegins;
      ValidParts();
      LinkedParts();
      num := Min(|x|, BBHEADER_SIZE - bbheaderIdx);
      ghost var t, f, b, y := View(), Now(), Buffer(), x[..num];
      FoldTOk(t, y);
      assert x == y + x[num..];
      BadSticks(t, y, x[num..]);
      ghost var r := FoldT(t, y);
      StoreBbheader(x[..num]);
      complete := bbheaderIdx == BBHEADER_SIZE;
      if complete {
        var h := buff[..BBHEADER_SIZE];
        assert h == Buffer()[..BBHEADER_SIZE] by { BufferIs(); }
        BbheaderComplete(f, b, y, Buffer(), rxs);
        BbheaderBehind(Behind(f.(crc := Crc32(f.crc, h)), rxs), h, t2miPayloadBytesLeft + BBHEADER_SIZE);
        ok := ReadBbheader(h, Behind(f.(crc := Crc32(f.crc, h)), rxs), r);
      } else {
        BbheaderIncomplete(f, b, y, Buffer(), rxs);
        ok := true;
        Settled(r);
      }
    }

    /** The call of bbf_output_ts_bytes. */
    method HandOver(x: seq<Byte>)
      requires Linked() && Prepared() && currentBbf != null && current in rxs && x != [] && RxOk(rxs[current])
      requires !rxs[current].v.hem ==> |x| <= rxs[current].v.left
      requires Fold(rxs[current].v, x).ok
      modifies `rxs, currentBbf, currentBbf.buff
      ensures Linked() && Prepared() && currentBbf == old(currentBbf) && current == old(current)
      ensures rxs == Handed(old(rxs), current, x)
    {
      hide BbframesStream.Valid, BbframesStream.View, Fold, Regular;
      assert One(current, rxs[current]);
      ghost var rx := rxs[current];
      ghost var r := Fold(rx.v, x);
      var ok, used := currentBbf.OutputTsBytes(x);
      assert One(current, Rx(r.v, rx.out + r.packets));
      hide One;
      rxs := rxs[current := Rx(r.v, rx.out + r.packets)];
    }

    /** Payload of the packet: handed to the stream if it is a frame, skipped if it is anything else. */
    method TakePayload(x: seq<Byte>)
      requires Valid() && View().phase.Body? && x != [] && |x| <= View().phase.left && !FoldT(View(), x).bad
      modifies `t2miCrc32, `t2miPayloadBytesLeft, `rxs, repr
      ensures Valid() && View() == FoldT(old(View()), x) && (View().phase.Body? || View().phase.Tail?)
    {
      hide FoldT, Crc32, Ok, Linked, ViewOf, Valid, View, Buffer, Prepared, RxOk, Fold, FieldsOk, PhaseOf, Handed;
      ValidParts();
      LinkedParts();
      ghost var t, f, b, rxs0 := View(), Now(), Buffer(), rxs;
      PhaseParts(f, b);
      FoldTOk(t, x);
      t2miCrc32 := ExtendCrc32(t2miCrc32, x);
      if packetType == 0 {
        FrameTaken(f, b, x, rxs);
        HandOver(x);
      } else {
        OtherTaken(f, b, x, rxs);
      }
      t2miPayloadBytesLeft := t2miPayloadBytesLeft - |x|;
      Settled(FoldT(t, x));
    }

    /** The checksum behind the payload. */
    method TakeCrc(x: seq<Byte>)
      requires Valid() && View().phase.Tail? && x != [] && crcIdx + |x| <= CRC_SIZE
      modifies `t2miCrc32, `crcIdx, `numCrc32Errors
      ensures Valid() && View() == FoldT(old(View()), x)
    {
      hide FoldT, Crc32, Ok, Linked, ViewOf, Valid, View, Buffer, Prepared, FieldsOk, PhaseOf;
      ValidParts();
      LinkedParts();
      ghost var t, f, b := View(), Now(), Buffer();
      FoldTOk(t, x);
      CrcTaken(f, b, x, rxs);
      t2miCrc32 := ExtendCrc32(t2miCrc32, x);
      crcIdx := crcIdx + |x|;
      if crcIdx == CRC_SIZE {
        if t2miCrc32 != 0 {
          numCrc32Errors := numCrc32Errors + 1;
        }
      }
      Settled(FoldT(t, x));
    }

    /** Both headers, as far as they are due at the front of `x`; `stop` is a return of the source. */
    method ReadHeaders(x: seq<Byte>) returns (stop: bool, p: nat)
      requires Valid() && x != [] && !FoldT(View(), x).bad
      modifies this, buff, repr
      ensures Valid() && (stop ==> View() == Whole(FoldT(old(View()), x)))
      ensures !stop ==> Reached(old(View()), x, p, View()) && !View().phase.Head? && !View().phase.BbHead?
    {
      hide FoldT, Crc32, Ok, Linked, ViewOf, Valid, View, Buffer, Prepared, FieldsOk, PhaseOf, Separate, Reached;
      ghost var t := View();
      ValidParts();
      PhaseParts(Now(), Buffer());
      ReachedStart(t, x);
      p := 0;
      var headerComplete := true;
      if FrameIsComplete(t2miPayloadBytesLeft, crcIdx, synced) || headerIdx > 0 {
        headerComplete, p := GetPacketHeader(x);
        assert x[0..] == x;
        ReachedMore(t, x, 0, t, p);
        ValidParts();
        PhaseParts(Now(), Buffer());
        assert !headerComplete ==> p == |x|;   // one of the source's BUG tests
      }
      if !headerComplete {
        ReachedEnd(t, x, p, View());
        return true, p;
      }
      stop, p := ReadSubHeader(x, p, t);
    }

    method ReadSubHeader(x: seq<Byte>, p0: nat, ghost t: Reframer) returns (stop: bool, p: nat)
      requires Valid() && Reached(t, x, p0, View()) && p0 <= |x| && !View().phase.Head?
      modifies this, buff, repr
      ensures Valid() && (stop ==> View() == Whole(FoldT(t, x)))
      ensures !stop ==> Reached(t, x, p, View()) && !View().phase.Head? && !View().phase.BbHead?
    {
      hide FoldT, Crc32, Ok, Linked, ViewOf, Valid, View, Buffer, Prepared, FieldsOk, PhaseOf, Separate, Reached;
      ValidParts();
      PhaseParts(Now(), Buffer());
      stop, p := false, p0;
      if bbheaderBytesLeft > 0 {
        ghost var u := View();
        ReachedRest(t, x, p, u);
        var bbheaderComplete, ok, n := GetBbheader(x[p..]);
        ReachedMore(t, x, p, u, n);
        p := p + n;
        if !ok || !bbheaderComplete {
          assert ok ==> p == |x|;   // one of the source's BUG tests
          ReachedEnd(t, x, p, FoldT(u, x[p0..][..n]));
          stop := true;
        }
      }
    }

    /** Payload and checksum, as far as they are due behind the first `p0` bytes of `x`. */
    method TakeRest(x: seq<Byte>, p0: nat, ghost t: Reframer) returns (p: nat)
      requires Valid() && Reached(t, x, p0, View()) && p0 <= |x| && (View().phase.Body? || View().phase.Tail?)
      modifies this, repr
      ensures Valid() && Reached(t, x, p, View()) && p0 <= p <= |x| && (p0 < |x| ==> p0 < p)
    {
      hide FoldT, Crc32, Ok, Linked, ViewOf, Valid, View, Buffer, Prepared, PhaseOf, Separate, Reached;
      ValidParts();
      PhaseParts(Now(), Buffer());
      p := p0;
      var n := Min(t2miPayloadBytesLeft, |x| - p);
      if n > 0 {
        ghost var u := View();
        ReachedMore(t, x, p, u, n);
        TakePayload(x[p..][..n]);
        p := p + n;
        ValidParts();
        PhaseParts(Now(), Buffer());
        assert t2miPayloadBytesLeft >= 0;   // one of the source's BUG tests
      }
      if t2miPayloadBytesLeft == 0 && |x| - p > 0 {
        assert crcIdx < CRC_SIZE;   // one of the source's BUG tests
        var k := Min(CRC_SIZE - crcIdx, |x| - p);
        ghost var u := View();
        ReachedMore(t, x, p, u, k);
        TakeCrc(x[p..][..k]);
        p := p + k;
      }
    }

    /** The body of the loop in t2mi_stream_add_packet; `stop` is a return of the source. */
    method NextPart(x: seq<Byte>) returns (stop: bool, p: nat)
      requires Valid() && x != [] && !FoldT(View(), x).bad
      modifies this, buff, repr
      ensures Valid() && (stop ==> View() == Whole(FoldT(old(View()), x)))
      ensures !stop ==> Reached(old(View()), x, p, View()) && 0 < p <= |x|
    {
      hide FoldT, Crc32, Ok, Linked, ViewOf, Valid, View, Buffer, Prepared, FieldsOk, PhaseOf, Separate, Reached;
      ghost var t := View();
      stop, p := ReadHeaders(x);
      if stop { return; }
      ValidParts();
      PhaseParts(Now(), Buffer());
      ReachedRest(t, x, p, View());
      LinkedParts();
      if currentBbf == null {
        ReachedEnd(t, x, p, View());
        return true, p;
      }
      p := TakeRest(x, p, t);
    }

    /** The second half of t2mi_stream_add_packet: the payload, from position `p` of the packet on. */
    method AddPayload(packet: seq<Byte>, p: nat, pusi: bool)
      requires Valid() && |packet| == TS_SIZE && p < TS_SIZE
      requires !OnPayload(View(), pusi, packet[p..]).bad
      modifies this, buff, repr
      ensures Valid() && View() == OnPayload(old(View()), pusi, packet[p..])
    {
      hide FoldT, Ok, Linked, ViewOf, Valid, View, Buffer, Prepared, FieldsOk, PhaseOf, Separate, Reached;
      ghost var t := View();
      ValidParts();
      var q := p;
      if pusi {
        var uimsbf := packet[q];
        q := q + 1;
        if q + uimsbf >= TS_SIZE {
          return;
        }
        if !synced {
          q := q + uimsbf;
          assert headerIdx == 0 by { PhaseParts(Now(), Buffer()); Unsynced(Now()); }   // the source tests it
        }
      }
      ghost var data, q0 := packet[q..], q;
      assert data == Relevant(synced, pusi, packet[p..]);
      ReachedStart(t, data);
      while q < TS_SIZE
        invariant q0 <= q <= TS_SIZE && Valid() && Reached(t, data, q - q0, View())
      {
        ghost var u := View();
        assert packet[q..] == data[q - q0..];
        ReachedRest(t, data, q - q0, u);
        var stop, n := NextPart(packet[q..]);
        if stop { return; }
        ReachedIs(u, packet[q..], n, View());
        ReachedMore(t, data, q - q0, u, n);
        q := q + n;
      }
      ReachedEnd(t, data, q - q0, View());
      ValidParts();
    }

    /** t2mi_stream_add_packet */
    method AddPacket(packet: seq<Byte>)
      requires Valid() && WellFramed(packet) && !OnPacket(View(), embeddingPid, ParseTs(packet)).bad
      modifies this, buff, repr
      ensures Valid() && View() == OnPacket(old(View()), embeddingPid, ParseTs(packet))
    {
      hide FoldT, Ok, Linked, Valid, View, Buffer, Prepared, Separate, OnPayload, ResetAll, FieldsOk, ViewOf;
      ghost var t, ts := View(), ParseTs(packet);
      ValidParts();
      LinkedParts();
      if Be16(packet[1] % 0x20, packet[2]) != embeddingPid { return; }
      var newCcCounter := packet[3] % 0x10;
      if packet[3] / 0x10 % 2 == 0 { return; }
      var hasAdaptationField := packet[3] / 0x20 % 2 == 1;
      if packet[3] / 0x40 != 0 { return; }
      var p, discontinuity := 4, false;
      if hasAdaptationField {
        var adaptationFieldLen := packet[4];
        if adaptationFieldLen > 0 {
          discontinuity := packet[5] / 8 % 2 == 1;
        }
        p := p + 1 + adaptationFieldLen;
      }
      assert ts.payload == packet[p..] && ts.discontinuity == discontinuity && ts.cc == newCcCounter;
      var pusi := packet[1] / 0x40 % 2 == 1;
      if !synced && !pusi { return; }
      var ccError := !discontinuity && newCcCounter != (ccCounter + 1) % 16 && ccCounter >= 0;
      if ccError {
        numCcErrors := numCcErrors + 1;
        ResetCounted(t);
        Reset(t.(ccErrors := t.ccErrors + 1));
        return;
      }
      CcOk(t, newCcCounter);
      ccCounter := newCcCounter;
      CcShown(t, newCcCounter);
      AddPayload(packet, p, pusi);
    }

    lemma CcShown(t: Reframer, cc: nat)
      requires Linked() && ccCounter == cc && FieldsOk(Now().(cc := t.cc)) && t == ViewOf(Now().(cc := t.cc), Buffer(), rxs)
      requires buff.Length == TS_SIZE && Ok(t.(cc := cc)) && (NeedsStream(t.phase) ==> Prepared())
      ensures Valid() && View() == t.(cc := cc)
    {
      hide Linked, Ok, Buffer, Prepared;
    }
  }
}
