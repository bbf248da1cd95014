/**
 * The T2-MI reframer of neumo-dvb-demux.c (clause 5 of ETSI TS 102 773), one byte at a time: a six
 * byte header, for baseband frames a thirteen byte sub-header, the payload and a four byte CRC, any
 * of which may be split between transport packets.
 */
module T2mi {
  import opened Bytes
  import opened Crc
  import opened BbFrames

  const HEADER_SIZE := 6
  const BBHEADER_SIZE := 13
  const CRC_SIZE := 4
  const UNSPECIFIED_PLP := 256

  /** One registered stream: its extractor, and what it has passed on. */
  datatype Rx = Rx(v: State, out: seq<seq<Byte>>)

  /**
   * Where the reframer is. `left` is what is still to come of the payload, counted from the
   * sub-header on. `Lost` is the state after a frame of a stream nobody has registered.
   */
  datatype Phase =
    | Head(h: seq<Byte>)
    | BbHead(left: int, b: seq<Byte>)
    | Body(frame: bool, left: int)
    | Tail(n: nat)
    | Lost

  /**
   * `bad` marks input this model does not follow further; `drop` that the rest of the transport
   * packet is ignored. `count` and `cc` are -1 while unknown, `current` while no stream is selected.
   */
  datatype Reframer = Reframer(
    bad: bool, drop: bool, synced: bool, phase: Phase, count: int, cc: int, crc: bv32,
    defaultPlp: int, current: int, rxs: map<int, Rx>, crc32Errors: nat, crc8Errors: nat, ccErrors: nat)

  predicate RxOk(rx: Rx) {
    Regular(rx.v) && rx.v.left >= 0
  }

  predicate Ok(t: Reframer) {
    && (forall k :: k in t.rxs ==> RxOk(t.rxs[k]))
    && -1 <= t.count < 256 && -1 <= t.cc < 16
    && (t.current != -1 ==> t.current in t.rxs)
    && match t.phase
       case Head(h) => |h| < HEADER_SIZE && (!t.synced ==> h == [])
       case BbHead(left, b) => |b| < BBHEADER_SIZE && t.synced
       case Body(frame, left) =>
         left > 0 && t.synced && t.current != -1 &&
         (frame && !t.rxs[t.current].v.hem ==> left <= t.rxs[t.current].v.left)
       case Tail(n) => n < CRC_SIZE && t.synced && t.current != -1
       case Lost => t.synced && t.current == -1
  }

  function Bad(): Reframer {
    Reframer(true, false, false, Head([]), -1, -1, 0, -1, -1, map[], 0, 0, 0)
  }

  /** t2mi_stream_reset: waits for the next packet start; the streams start over as well. */
  function ResetAll(t: Reframer): Reframer {
    t.(synced := false, phase := Head([]), count := -1, cc := -1, crc := 0, current := -1,
       rxs := ResetRxs(t.rxs))
  }

  function ResetRxs(rxs: map<int, Rx>): map<int, Rx> {
    map k | k in rxs :: rxs[k].(v := FreshState())
  }

  /** Behind the headers: payload or checksum, if a stream is selected. */
  function PayloadPhase(t: Reframer, frame: bool, left: int): Phase {
    if t.current == -1 then Lost else if left > 0 then Body(frame, left) else Tail(0)
  }

  /** get_t2mi_packet_header, once its six bytes are there. */
  function AfterHeader(t: Reframer, h: seq<Byte>): Reframer
    requires |h| == HEADER_SIZE
  {
    var frame := h[0] == 0;
    if t.count >= 0 && (t.count + 1) % 256 != h[1] then
      // a gap in the counter: four bytes are read as if they were a checksum
      t.(synced := true, phase := PayloadPhase(t, frame, 0), crc := 0xffff_ffff)
    else
      var len := (Be16(h[4], h[5]) + 7) / 8;
      t.(synced := true, count := h[1], crc := Crc32(0xffff_ffff, h),
         phase := if frame then BbHead(len, []) else PayloadPhase(t, false, len))
  }

  /** The stream a physical layer pipe is delivered to, or -1. */
  function Select(keys: set<int>, defaultPlp: int, plp: int): int {
    if plp in keys then plp
    else if plp == defaultPlp && UNSPECIFIED_PLP in keys then UNSPECIFIED_PLP
    else -1
  }

  /** A stream does not change its mode between two resets. */
  predicate ModeOk(rx: Rx, hem: bool) {
    rx.v.synced ==> rx.v.hem == hem
  }

  /** In normal mode the extractor needs packets of 188 bytes and the exact length of the data field. */
  predicate LengthsOk(hem: bool, header: seq<Byte>, left: int)
    requires |header| == 10
  {
    !hem ==> Be16(header[2], header[3]) / 8 == TS_SIZE && Be16(header[4], header[5]) / 8 == left
  }

  /** get_t2mi_bbheader, once its thirteen bytes are there; `left` counts from the sub-header on. */
  function AfterBbheader(t: Reframer, b: seq<Byte>, left: int): Reframer
    requires |b| == BBHEADER_SIZE
  {
    BbheaderRead(t.(phase := Head([]), crc := Crc32(t.crc, b)), b, left)
  }

  function BbheaderRead(t: Reframer, b: seq<Byte>, left: int): Reframer
    requires |b| == BBHEADER_SIZE
  {
    var header := b[3..13];
    var mode := ModeBits(Crc8(0, header[..9]), header[9]);
    if mode & 0xfe != 0 then
      ResetAll(t).(drop := true, crc8Errors := t.crc8Errors + 1)
    else
      var plp := b[1];
      var defaultPlp := if t.defaultPlp < 0 then plp else t.defaultPlp;
      var k := Select(t.rxs.Keys, defaultPlp, plp);
      FrameBegins(t.(defaultPlp := defaultPlp, current := k), mode == 1, header, left)
  }

  /** The frame of the selected stream begins. */
  function FrameBegins(t: Reframer, hem: bool, header: seq<Byte>, left: int): Reframer
    requires |header| == 10 && (t.current != -1 ==> t.current in t.rxs)
  {
    if t.current == -1 then t.(phase := Lost)
    else if !ModeOk(t.rxs[t.current], hem) then Bad()
    else if Be16(header[4], header[5]) / 8 > left - BBHEADER_SIZE then
      ResetAll(t).(drop := true)
    else if !LengthsOk(hem, header, left - BBHEADER_SIZE) then Bad()
    else
      var rx := t.rxs[t.current];
      t.(rxs := t.rxs[t.current := rx.(v := OnHeader(rx.v, hem, header))],
         phase := if left > BBHEADER_SIZE then Body(true, left - BBHEADER_SIZE) else Tail(0))
  }

  /** Data of a frame, handed to its stream. */
  function Hand(t: Reframer, x: seq<Byte>): Reframer
    requires t.current in t.rxs && Regular(t.rxs[t.current].v)
  {
    var rx := t.rxs[t.current];
    var r := Fold(rx.v, x);
    if !r.ok then Bad() else t.(rxs := t.rxs[t.current := Rx(r.v, rx.out + r.packets)])
  }

  function Shrunk(t: Reframer, frame: bool, left: int): Reframer {
    if t.bad then t else t.(phase := if left > 0 then Body(frame, left) else Tail(0))
  }

  function StepT(t: Reframer, x: Byte): Reframer
    requires Ok(t)
  {
    if t.bad || t.drop then t else
      match t.phase
      case Head(h) =>
        if |h| + 1 == HEADER_SIZE then AfterHeader(t, h + [x]) else t.(synced := true, phase := Head(h + [x]))
      case BbHead(left, b) =>
        if |b| + 1 == BBHEADER_SIZE then AfterBbheader(t, b + [x], left) else t.(phase := BbHead(left, b + [x]))
      case Body(frame, left) =>
        var s := t.(crc := Crc32(t.crc, [x]));
        if frame then Shrunk(Hand(s, [x]), true, left - 1) else Shrunk(s, false, left - 1)
      case Tail(n) =>
        AfterTail(t.(crc := Crc32(t.crc, [x])), n + 1)
      case Lost => t
  }

  /** Behind the fourth byte the register tells whether the packet was intact; either way the next begins. */
  function AfterTail(t: Reframer, n: nat): Reframer {
    if n == CRC_SIZE then
      t.(phase := Head([]), crc := 0, crc32Errors := t.crc32Errors + if t.crc != 0 then 1 else 0)
    else t.(phase := Tail(n))
  }

  lemma AfterHeaderOk(t: Reframer, h: seq<Byte>)
    requires Ok(t) && |h| == HEADER_SIZE
    ensures Ok(AfterHeader(t, h))
  {
    hide Crc32, RxOk;
  }

  lemma AfterBbheaderOk(t: Reframer, b: seq<Byte>, left: int)
    requires Ok(t) && |b| == BBHEADER_SIZE && t.synced
    ensures Ok(AfterBbheader(t, b, left))
  {
    hide Crc32, Crc8, ModeBits, FrameBegins, ResetRxs;
    ResetRxsOk(t);
    var mode := ModeBits(Crc8(0, b[3..13][..9]), b[12]);
    if mode & 0xfe == 0 {
      var defaultPlp := if t.defaultPlp < 0 then b[1] else t.defaultPlp;
      var k := Select(t.rxs.Keys, defaultPlp, b[1]);
      FrameBeginsOk(t.(phase := Head([]), crc := Crc32(t.crc, b), defaultPlp := defaultPlp, current := k), mode == 1, b[3..13], left);
    }
  }

  lemma FrameBeginsOk(t: Reframer, hem: bool, header: seq<Byte>, left: int)
    requires |header| == 10 && Ok(t) && t.synced
    ensures Ok(FrameBegins(t, hem, header, left))
  {
    hide ResetRxs;
    ResetRxsOk(t);
    forall k | k in t.rxs ensures Regular(t.rxs[k].v) { assert RxOk(t.rxs[k]); }
  }

  lemma ResetRxsOk(t: Reframer)
    ensures forall k :: k in ResetRxs(t.rxs) ==> RxOk(ResetRxs(t.rxs)[k])
  {
  }

  lemma StepOk(t: Reframer, x: Byte)
    requires Ok(t)
    ensures Ok(StepT(t, x))
  {
    hide Fold, Crc32, Crc8, AfterHeader, AfterBbheader, RxOk;
    if !t.bad && !t.drop {
      match t.phase
      case Head(h) => if |h| + 1 == HEADER_SIZE { AfterHeaderOk(t, h + [x]); }
      case BbHead(left, b) => if |b| + 1 == BBHEADER_SIZE { AfterBbheaderOk(t, b + [x], left); }
      case Body(frame, left) => if frame { HandOk(t.(crc := Crc32(t.crc, [x])), [x]); }
      case Tail(n) =>
      case Lost =>
    }
  }

  /** The extractor stays regular, and counts down no faster than its bytes come in. */
  lemma {:induction false} FoldLeft(v: State, x: seq<Byte>)
    requires Regular(v) && v.left >= 0 && (!v.hem ==> |x| <= v.left)
    ensures Fold(v, x).ok ==>
              var w := Fold(v, x).v;
              Regular(w) && w.left >= 0 && w.hem == v.hem && (!v.hem ==> w.left >= v.left - |x|)
    decreases |x|
  {
    FoldRegular(v, x);
    if x != [] {
      StepRegular(v, x[0]);
      var w := Step(v, x[0]).v;
      assert w.left >= 0 && w.left >= v.left - 1;
      hide Step;
      if Step(v, x[0]).ok { FoldLeft(w, x[1..]); }
    }
  }

  lemma HandOk(t: Reframer, x: seq<Byte>)
    requires t.current in t.rxs && RxOk(t.rxs[t.current])
    requires !t.rxs[t.current].v.hem ==> |x| <= t.rxs[t.current].v.left
    ensures var s := Hand(t, x);
            !Fold(t.rxs[t.current].v, x).ok || (
              && s.current == t.current && s.rxs.Keys == t.rxs.Keys && RxOk(s.rxs[t.current])
              && (forall k :: k in t.rxs && k != t.current ==> s.rxs[k] == t.rxs[k])
              && s.rxs[t.current].v.hem == t.rxs[t.current].v.hem
              && (!s.rxs[t.current].v.hem ==> s.rxs[t.current].v.left >= t.rxs[t.current].v.left - |x|))
  {
    FoldLeft(t.rxs[t.current].v, x);
  }

  function FoldT(t: Reframer, x: seq<Byte>): Reframer
    requires Ok(t)
    decreases |x|
  {
    if x == [] then t else
      StepOk(t, x[0]);
      FoldT(StepT(t, x[0]), x[1..])
  }

  lemma {:induction false} FoldTOk(t: Reframer, x: seq<Byte>)
    requires Ok(t)
    ensures Ok(FoldT(t, x))
    decreases |x|
  {
    hide StepT, Ok;
    if x != [] {
      StepOk(t, x[0]);
      FoldTOk(StepT(t, x[0]), x[1..]);
    }
  }

  /** Where transport packets are cut does not matter. */
  lemma {:induction false} FoldTSplit(t: Reframer, x: seq<Byte>, y: seq<Byte>)
    requires Ok(t)
    ensures Ok(FoldT(t, x)) && FoldT(t, x + y) == FoldT(FoldT(t, x), y)
    decreases |x|
  {
    hide StepT, Ok;
    FoldTOk(t, x);
    if x == [] {
      assert x + y == y;
    } else {
      assert (x + y)[0] == x[0] && (x + y)[1..] == x[1..] + y;
      StepOk(t, x[0]);
      FoldTSplit(StepT(t, x[0]), x[1..], y);
    }
  }

  // ---------------------------------------------------------------------------------------------
  // Many bytes at a time
  // ---------------------------------------------------------------------------------------------

  lemma {:induction false} FoldDrop(t: Reframer, x: seq<Byte>)
    requires Ok(t) && (t.bad || t.drop || t.phase.Lost?)
    ensures FoldT(t, x) == t
    decreases |x|
  {
    if x != [] { FoldDrop(t, x[1..]); }
  }

  /** Bytes of the packet header. */
  lemma {:induction false} FoldHead(t: Reframer, x: seq<Byte>)
    requires Ok(t) && !t.bad && !t.drop && t.phase.Head? && x != [] && |t.phase.h| + |x| <= HEADER_SIZE
    ensures FoldT(t, x) == if |t.phase.h| + |x| == HEADER_SIZE then AfterHeader(t, t.phase.h + x)
                           else t.(synced := true, phase := Head(t.phase.h + x))
    decreases |x|
  {
    hide AfterHeader;
    var s := StepT(t, x[0]);
    StepOk(t, x[0]);
    assert t.phase.h + x == (t.phase.h + [x[0]]) + x[1..];
    if |x| > 1 {
      FoldHead(s, x[1..]);
      if |t.phase.h + x| == HEADER_SIZE { SyncedDoesNotMatter(t, s.phase, t.phase.h + x); }
    } else {
      assert x == [x[0]] && x[1..] == [];
      FoldTNothing(s);
    }
  }

  lemma FoldTNothing(t: Reframer)
    requires Ok(t)
    ensures FoldT(t, []) == t
  {
  }

  lemma SyncedDoesNotMatter(t: Reframer, p: Phase, h: seq<Byte>)
    requires |h| == HEADER_SIZE
    ensures AfterHeader(t.(synced := true, phase := p), h) == AfterHeader(t, h)
  {
    hide Crc32;
  }

  lemma {:induction false} FoldBbHead(t: Reframer, x: seq<Byte>)
    requires Ok(t) && !t.bad && !t.drop && t.phase.BbHead? && x != [] && |t.phase.b| + |x| <= BBHEADER_SIZE
    ensures FoldT(t, x) == if |t.phase.b| + |x| == BBHEADER_SIZE then AfterBbheader(t, t.phase.b + x, t.phase.left)
                           else t.(phase := BbHead(t.phase.left, t.phase.b + x))
    decreases |x|
  {
    hide AfterBbheader;
    var s := StepT(t, x[0]);
    StepOk(t, x[0]);
    assert t.phase.b + x == (t.phase.b + [x[0]]) + x[1..];
    if |x| > 1 {
      FoldBbHead(s, x[1..]);
      if |t.phase.b + x| == BBHEADER_SIZE { PhaseDoesNotMatter(t, s.phase, t.phase.b + x, t.phase.left); }
    } else {
      assert x == [x[0]] && x[1..] == [];
    }
  }

  lemma PhaseDoesNotMatter(t: Reframer, p: Phase, b: seq<Byte>, left: int)
    requires |b| == BBHEADER_SIZE
    ensures AfterBbheader(t.(phase := p), b, left) == AfterBbheader(t, b, left)
  {
    hide BbheaderRead;
    assert t.(phase := Head([])) == t.(phase := p).(phase := Head([]));
  }

  /** Payload that is skipped, with the checksum kept up to date. */
  lemma {:induction false} FoldOther(t: Reframer, x: seq<Byte>)
    requires Ok(t) && !t.bad && !t.drop && t.phase.Body? && !t.phase.frame && x != [] && |x| <= t.phase.left
    ensures FoldT(t, x) == Shrunk(t.(crc := Crc32(t.crc, x)), false, t.phase.left - |x|)
    decreases |x|
  {
    hide Crc32;
    var s := StepT(t, x[0]);
    StepOk(t, x[0]);
    CrcStep(t.crc, x);
    if |x| > 1 {
      FoldOther(s, x[1..]);
    } else {
      assert x == [x[0]] && x[1..] == [];
    }
  }

  lemma CrcStep(c: bv32, x: seq<Byte>)
    requires x != []
    ensures Crc32(Crc32(c, [x[0]]), x[1..]) == Crc32(c, x)
  {
    hide Crc32;
    Crc32Split(c, [x[0]], x[1..]);
    assert [x[0]] + x[1..] == x;
  }

  /** Data of a frame: all of it reaches the extractor. */
  lemma {:induction false} FoldFrame(t: Reframer, x: seq<Byte>)
    requires Ok(t) && !t.bad && !t.drop && t.phase.Body? && t.phase.frame && x != [] && |x| <= t.phase.left
    ensures FoldT(t, x) == (assert RxOk(t.rxs[t.current]);
                            Shrunk(Hand(t.(crc := Crc32(t.crc, x)), x), true, t.phase.left - |x|))
    decreases |x|
  {
    hide Crc32, Fold;
    assert RxOk(t.rxs[t.current]);
    var s := StepT(t, x[0]);
    StepOk(t, x[0]);
    CrcStep(t.crc, x);
    if |x| > 1 {
      var y, z := [x[0]], x[1..];
      assert x == y + z;
      HandInTwo(t, y, z);
      if s.bad { FoldDrop(s, z); } else { FoldFrame(s, z); }
    } else {
      assert x == [x[0]] && x[1..] == [];
    }
  }

  lemma HandInTwo(t: Reframer, y: seq<Byte>, z: seq<Byte>)
    requires t.current in t.rxs && Regular(t.rxs[t.current].v)
    ensures var s := Hand(t.(crc := Crc32(t.crc, y)), y);
            if Fold(t.rxs[t.current].v, y).ok then
              && s.current in s.rxs && Regular(s.rxs[s.current].v)
              && Hand(s.(crc := Crc32(s.crc, z)), z) == Hand(t.(crc := Crc32(t.crc, y + z)), y + z)
            else s == Bad() && Hand(t.(crc := Crc32(t.crc, y + z)), y + z) == Bad()
  {
    hide Crc32, Fold;
    var rx := t.rxs[t.current];
    FoldSplit(rx.v, y, z);
    Crc32Split(t.crc, y, z);
    if Fold(rx.v, y).ok {
      var r := Fold(rx.v, y);
      var q := Fold(r.v, z);
      Associative(rx.out, r.packets, q.packets);
      assert t.rxs[t.current := Rx(r.v, rx.out + r.packets)][t.current := Rx(q.v, (rx.out + r.packets) + q.packets)]
          == t.rxs[t.current := Rx(q.v, (rx.out + r.packets) + q.packets)];
    }
  }

  /** Bytes of the checksum. */
  lemma {:induction false} FoldTail(t: Reframer, x: seq<Byte>)
    requires Ok(t) && !t.bad && !t.drop && t.phase.Tail? && x != [] && t.phase.n + |x| <= CRC_SIZE
    ensures FoldT(t, x) == AfterTail(t.(crc := Crc32(t.crc, x)), t.phase.n + |x|)
    decreases |x|
  {
    hide Crc32;
    var s := StepT(t, x[0]);
    StepOk(t, x[0]);
    CrcStep(t.crc, x);
    if |x| > 1 {
      FoldTail(s, x[1..]);
    } else {
      assert x == [x[0]] && x[1..] == [];
    }
  }
}
