/**
 * Whole runs of the T2-MI reframer: any sequence of well-formed packets for registered pipes, a
 * baseband frame first, delivers to every stream exactly the frames sent to it; and so every
 * stream puts out exactly the user packets its frames carry.
 */
module T2miRoundTrip {
  import opened Bytes
  import opened Crc
  import opened BbFrames
  import opened T2mi
  import opened T2miStreams
  import opened T2miProofs
  import P = BbFramesProofs

  // ---------------------------------------------------------------------------------------------
  // Packets one after the other
  // ---------------------------------------------------------------------------------------------

  predicate AllWellFormed(ps: seq<T2Packet>) {
    forall i :: 0 <= i < |ps| ==> WellFormed(ps[i])
  }

  function Units(ps: seq<T2Packet>): (us: seq<seq<Byte>>)
    requires AllWellFormed(ps)
    ensures |us| == |ps|
  {
    if ps == [] then [] else [Serialise(ps[0])] + Units(ps[1..])
  }

  ghost predicate AllAcceptable(t: Reframer, ps: seq<T2Packet>)
    requires Between(t)
    decreases |ps|
  {
    ps == [] || (Acceptable(t, ps[0]) && (OnePacket(t, ps[0]); AllAcceptable(After(t, ps[0]), ps[1..])))
  }

  ghost function AfterAll(t: Reframer, ps: seq<T2Packet>): Reframer
    requires Between(t) && AllAcceptable(t, ps)
    decreases |ps|
  {
    if ps == [] then t else
      OnePacket(t, ps[0]);
      AfterAll(After(t, ps[0]), ps[1..])
  }

  /** Byte by byte comes to the same as packet by packet. */
  lemma {:induction false} Reframing(t: Reframer, ps: seq<T2Packet>)
    requires Between(t) && AllWellFormed(ps) && AllAcceptable(t, ps)
    ensures Between(AfterAll(t, ps)) && FoldT(t, Concat(Units(ps))) == AfterAll(t, ps)
    decreases |ps|
  {
    hide FoldT, After, Acceptable, Serialise, Ok;
    if ps == [] {
      FoldTNothing(t);
    } else {
      OnePacket(t, ps[0]);
      var u := After(t, ps[0]);
      Reframing(u, ps[1..]);
      assert Units(ps)[1..] == Units(ps[1..]);
      assert Concat(Units(ps)) == Serialise(ps[0]) + Concat(Units(ps[1..]));
      FoldTSplit(t, Serialise(ps[0]), Concat(Units(ps[1..])));
    }
  }

  // ---------------------------------------------------------------------------------------------
  // The frames of one stream
  // ---------------------------------------------------------------------------------------------

  /** What the header of a frame says about its field. */
  function FrameOf(c: Content): P.Frame
    requires c.Baseband? && WellFormedContent(c)
  {
    var dfl := Be16(c.header[4], c.header[5]) / 8;
    P.Frame(Be16(c.header[7], c.header[8]) / 8, c.field[..dfl], c.field[dfl..])
  }

  function PlpBehind(defaultPlp: int, c: Content): int
    requires WellFormedContent(c)
  {
    if c.Baseband? && defaultPlp < 0 then c.intro[1] else defaultPlp
  }

  /** A frame is for the stream of its PLP; if there is none, and its PLP is the first one seen, for the one under 256. */
  predicate IsFor(keys: set<int>, defaultPlp: int, c: Content, k: int)
    requires WellFormedContent(c)
  {
    c.Baseband? && (c.intro[1] == k || (k == 256 && c.intro[1] !in keys && c.intro[1] == PlpBehind(defaultPlp, c)))
  }

  /** There is a stream for it. */
  predicate Served(keys: set<int>, defaultPlp: int, c: Content)
    requires WellFormedContent(c)
  {
    c.Baseband? && (c.intro[1] in keys || (256 in keys && c.intro[1] == PlpBehind(defaultPlp, c)))
  }

  /** Frames have a stream all the time, and anything else comes behind one of them. */
  predicate Routed(keys: set<int>, defaultPlp: int, selected: bool, ps: seq<T2Packet>)
    requires AllWellFormed(ps)
    decreases |ps|
  {
    ps == [] ||
    (var c := ps[0].content;
     (if c.Baseband? then Served(keys, defaultPlp, c) else selected)
     && Routed(keys, PlpBehind(defaultPlp, c), true, ps[1..]))
  }

  /** Counters follow on each other, and on `count` unless that is unknown. */
  predicate Counted(count: int, ps: seq<T2Packet>)
    decreases |ps|
  {
    ps == [] || ((count >= 0 ==> ps[0].count == (count + 1) % 256) && Counted(ps[0].count, ps[1..]))
  }

  /** The packets with frames for stream `k`. */
  function For(keys: set<int>, defaultPlp: int, ps: seq<T2Packet>, k: int): (cs: seq<Content>)
    requires AllWellFormed(ps)
    ensures forall i :: 0 <= i < |cs| ==> cs[i].Baseband? && WellFormedContent(cs[i])
    decreases |ps|
  {
    if ps == [] then [] else
      var c := ps[0].content;
      (if IsFor(keys, defaultPlp, c, k) then [c] else [])
      + For(keys, PlpBehind(defaultPlp, c), ps[1..], k)
  }

  function Frames(cs: seq<Content>): (fs: seq<P.Frame>)
    requires forall i :: 0 <= i < |cs| ==> cs[i].Baseband? && WellFormedContent(cs[i])
    ensures |fs| == |cs|
  {
    if cs == [] then [] else [FrameOf(cs[0])] + Frames(cs[1..])
  }

  predicate OneMode(cs: seq<Content>, hem: bool)
    requires forall i :: 0 <= i < |cs| ==> cs[i].Baseband?
  {
    forall i :: 0 <= i < |cs| ==> cs[i].hem == hem
  }

  /** A stream ready for frames in mode `hem`. */
  predicate Ready(rx: Rx, hem: bool) {
    RxOk(rx) && ModeOk(rx, hem) && Regular(rx.v.(hem := hem))
  }

  /** The frames of a stream, from its state on, none of them refused. */
  predicate Takes(rx: Rx, hem: bool, cs: seq<Content>)
    requires forall i :: 0 <= i < |cs| ==> cs[i].Baseband? && WellFormedContent(cs[i])
  {
    Ready(rx, hem) && OneMode(cs, hem) && P.FoldFrames(rx.v.(hem := hem), Frames(cs)).ok
  }

  lemma HeaderBegins(v: State, c: Content)
    requires c.Baseband? && WellFormedContent(c)
    ensures OnHeader(v, c.hem, BbHeader(c.header, c.hem)) == P.BeginFrame(v.(hem := c.hem), FrameOf(c))
  {
    hide Crc8, HeaderCheckByte;
  }

  /** What the extractor makes of one frame. */
  function FieldOut(rx: Rx, c: Content): Out
    requires RxOk(rx) && c.Baseband? && WellFormedContent(c) && ModeOk(rx, c.hem)
  {
    OnHeaderRegular(rx, c);
    Fold(OnHeader(rx.v, c.hem, BbHeader(c.header, c.hem)), c.field)
  }

  lemma FieldLeft(rx: Rx, c: Content)
    requires RxOk(rx) && c.Baseband? && WellFormedContent(c) && ModeOk(rx, c.hem) && FieldOut(rx, c).ok
    ensures var r := FieldOut(rx, c);
            Accepted(rx, c) && Received(rx, c) == Rx(r.v, rx.out + r.packets) && Ready(Received(rx, c), c.hem)
    ensures FieldOut(rx, c).v.hem == c.hem
  {
    hide Fold, Crc8, HeaderCheckByte;
    OnHeaderRegular(rx, c);
    FoldLeft(OnHeader(rx.v, c.hem, BbHeader(c.header, c.hem)), c.field);
    assert FieldOut(rx, c).v.(hem := c.hem) == FieldOut(rx, c).v;
  }

  lemma FieldOutIs(rx: Rx, c: Content)
    requires RxOk(rx) && c.Baseband? && WellFormedContent(c) && ModeOk(rx, c.hem) && Regular(rx.v.(hem := c.hem))
    ensures var w := P.BeginFrame(rx.v.(hem := c.hem), FrameOf(c));
            Regular(w) && FieldOut(rx, c) == Fold(w, FrameOf(c).data + FrameOf(c).padding)
  {
    hide Fold, Regular, BbHeader, OnHeader, P.BeginFrame;
    P.RegularBegin(rx.v.(hem := c.hem), FrameOf(c));
    HeaderBegins(rx.v, c);
    assert FrameOf(c).data + FrameOf(c).padding == c.field;
  }

  /** The first of several frames, and those behind it. */
  lemma FramesFirst(rx: Rx, cs: seq<Content>)
    requires cs != [] && forall i :: 0 <= i < |cs| ==> cs[i].Baseband? && WellFormedContent(cs[i])
    requires Ready(rx, cs[0].hem)
    ensures var first := FieldOut(rx, cs[0]);
            var all := P.FoldFrames(rx.v.(hem := cs[0].hem), Frames(cs));
            && Regular(first.v) && (!first.ok ==> !all.ok)
            && (first.ok ==>
                  var rest := P.FoldFrames(first.v, Frames(cs[1..]));
                  all == Out(rest.v, first.packets + rest.packets, rest.ok))
  {
    hide Fold, FieldOut, Regular, FrameOf, P.FoldFrames, P.BeginFrame;
    var c := cs[0];
    FieldOutIs(rx, c);
    assert Frames(cs) == [FrameOf(c)] + Frames(cs[1..]);
    P.FramesStep(rx.v.(hem := c.hem), FrameOf(c), Frames(cs[1..]));
  }

  /** The first frame of a stream that takes them all. */
  lemma TakesFirst(rx: Rx, hem: bool, cs: seq<Content>)
    requires cs != [] && forall i :: 0 <= i < |cs| ==> cs[i].Baseband? && WellFormedContent(cs[i])
    requires Takes(rx, hem, cs)
    ensures Accepted(rx, cs[0]) && Takes(Received(rx, cs[0]), hem, cs[1..])
    ensures Total(rx, hem, cs) == Total(Received(rx, cs[0]), hem, cs[1..])
  {
    hide Regular, P.FoldFrames, FieldOut, Accepted, Received, RxOk;
    FramesFirst(rx, cs);
    FieldLeft(rx, cs[0]);
    var first := FieldOut(rx, cs[0]);
    assert first.v.(hem := hem) == first.v;
    Associative(rx.out, first.packets, P.FoldFrames(first.v, Frames(cs[1..])).packets);
  }

  /** Everything a stream has passed on once it has taken the frames. */
  function Total(rx: Rx, hem: bool, cs: seq<Content>): seq<seq<Byte>>
    requires forall i :: 0 <= i < |cs| ==> cs[i].Baseband? && WellFormedContent(cs[i])
    requires Takes(rx, hem, cs)
  {
    rx.out + P.FoldFrames(rx.v.(hem := hem), Frames(cs)).packets
  }

  // ---------------------------------------------------------------------------------------------
  // Delivery
  // ---------------------------------------------------------------------------------------------

  /** Every registered stream takes the frames sent to it. */
  ghost predicate AllTake(t: Reframer, ps: seq<T2Packet>, modes: map<int, bool>)
    requires AllWellFormed(ps)
  {
    forall k :: k in t.rxs ==> k in modes && Takes(t.rxs[k], modes[k], For(t.rxs.Keys, t.defaultPlp, ps, k))
  }

  /** In `u` every stream has got what was sent to it behind `t`, and nothing else has changed. */
  ghost predicate Delivered(t: Reframer, ps: seq<T2Packet>, modes: map<int, bool>, u: Reframer)
    requires AllWellFormed(ps) && AllTake(t, ps, modes)
  {
    && Between(u) && u.rxs.Keys == t.rxs.Keys && u.cc == t.cc && u.synced == (t.synced || ps != [])
    && u.crc32Errors == t.crc32Errors && u.crc8Errors == t.crc8Errors && u.ccErrors == t.ccErrors
    && u.count == (if ps == [] then t.count else ps[|ps| - 1].count)
    && forall k :: k in t.rxs ==> u.rxs[k].out == Total(t.rxs[k], modes[k], For(t.rxs.Keys, t.defaultPlp, ps, k))
  }

  lemma ForFirst(keys: set<int>, defaultPlp: int, ps: seq<T2Packet>, k: int)
    requires AllWellFormed(ps) && ps != []
    ensures var c := ps[0].content;
            var rest := For(keys, PlpBehind(defaultPlp, c), ps[1..], k);
            For(keys, defaultPlp, ps, k) == if IsFor(keys, defaultPlp, c, k) then [c] + rest else rest
  {
  }

  /** The first packet is acceptable, and the others find the streams ready. */
  lemma FirstAcceptable(t: Reframer, ps: seq<T2Packet>, modes: map<int, bool>)
    requires Between(t) && AllWellFormed(ps) && ps != [] && AllTake(t, ps, modes)
    requires Counted(t.count, ps) && Routed(t.rxs.Keys, t.defaultPlp, t.current != -1, ps)
    ensures Acceptable(t, ps[0])
    ensures var u := After(t, ps[0]); u.rxs.Keys == t.rxs.Keys && AllTake(u, ps[1..], modes)
    ensures forall k :: k in t.rxs ==>
              && k in After(t, ps[0]).rxs && k in modes
              && Takes(After(t, ps[0]).rxs[k], modes[k], For(t.rxs.Keys, PlpBehind(t.defaultPlp, ps[0].content), ps[1..], k))
              && Total(t.rxs[k], modes[k], For(t.rxs.Keys, t.defaultPlp, ps, k))
                 == Total(After(t, ps[0]).rxs[k], modes[k], For(t.rxs.Keys, PlpBehind(t.defaultPlp, ps[0].content), ps[1..], k))
  {
    hide Takes, Received, Accepted, For, Total, WellFormedContent, Select;
    var c := ps[0].content;
    var k0 := Stream(t, c);
    if c.Baseband? { StreamOfFrame(t, c); }
    forall k | k in t.rxs
      ensures var cs := For(t.rxs.Keys, t.defaultPlp, ps, k);
              var cs' := For(t.rxs.Keys, PlpBehind(t.defaultPlp, c), ps[1..], k);
              k in modes && Takes(t.rxs[k], modes[k], cs)
              && if c.Baseband? && k == k0 then
                   && RxOk(t.rxs[k]) && Accepted(t.rxs[k], c) && Takes(Received(t.rxs[k], c), modes[k], cs')
                   && Total(t.rxs[k], modes[k], cs) == Total(Received(t.rxs[k], c), modes[k], cs')
                 else cs == cs'
    {
      ForFirst(t.rxs.Keys, t.defaultPlp, ps, k);
      var cs := For(t.rxs.Keys, t.defaultPlp, ps, k);
      assert Takes(t.rxs[k], modes[k], cs);
      if c.Baseband? && k == k0 {
        assert cs[1..] == For(t.rxs.Keys, PlpBehind(t.defaultPlp, c), ps[1..], k);
        TakesFirst(t.rxs[k], modes[k], cs);
      }
    }
  }

  /** What the reframer selects is the stream the frame is for. */
  lemma StreamOfFrame(t: Reframer, c: Content)
    requires c.Baseband? && WellFormedContent(c)
    ensures Served(t.rxs.Keys, t.defaultPlp, c) ==>
              Stream(t, c) in t.rxs && Stream(t, c) != -1
              && forall k :: k in t.rxs ==> (IsFor(t.rxs.Keys, t.defaultPlp, c, k) <==> k == Stream(t, c))
    ensures !Served(t.rxs.Keys, t.defaultPlp, c) ==> Stream(t, c) == -1
  {
  }

  /** Everything sent arrives, at the stream it was sent to and in order. */
  lemma {:induction false} Delivery(t: Reframer, ps: seq<T2Packet>, modes: map<int, bool>)
    requires Between(t) && AllWellFormed(ps) && AllTake(t, ps, modes)
    requires Counted(t.count, ps) && Routed(t.rxs.Keys, t.defaultPlp, t.current != -1, ps)
    ensures AllAcceptable(t, ps) && Delivered(t, ps, modes, AfterAll(t, ps))
    decreases |ps|
  {
    hide Takes, Received, Accepted, For, Total, WellFormed, Ok;
    if ps == [] {
      forall k | k in t.rxs ensures t.rxs[k].out == Total(t.rxs[k], modes[k], For(t.rxs.Keys, t.defaultPlp, ps, k)) {
        NothingSent(t.rxs.Keys, t.defaultPlp, ps, k, t.rxs[k], modes[k]);
      }
    } else {
      FirstAcceptable(t, ps, modes);
      OnePacket(t, ps[0]);
      Delivery(After(t, ps[0]), ps[1..], modes);
    }
  }

  lemma NothingSent(keys: set<int>, defaultPlp: int, ps: seq<T2Packet>, k: int, rx: Rx, hem: bool)
    requires ps == [] && Takes(rx, hem, For(keys, defaultPlp, ps, k))
    ensures rx.out == Total(rx, hem, For(keys, defaultPlp, ps, k))
  {
  }

  // ---------------------------------------------------------------------------------------------
  // User packets, end to end
  // ---------------------------------------------------------------------------------------------

  /** High efficiency mode: `t` ends a user packet already under way, `u` begins one still incomplete. */
  predicate HemField(fs: seq<P.Frame>, t: seq<Byte>, ups: seq<seq<Byte>>, u: seq<Byte>) {
    && fs != [] && fs[0].data != [] && fs[0].syncd == |t| <= |fs[0].data|
    && P.UserPackets(ups) && |u| < P.BODY && P.Data(fs) == t + (P.UserData(ups) + u)
  }

  /** Normal mode: the CRC-8 of each user packet, `c` for the first, takes the place of the next one's sync byte. */
  predicate NormalField(fs: seq<P.Frame>, t: seq<Byte>, c: Byte, ups: seq<seq<Byte>>, u: seq<Byte>) {
    && fs != [] && fs[0].data != [] && fs[0].syncd == |t| <= |fs[0].data| && P.NoPadding(fs)
    && P.UserPackets(ups) && |u| < TS_SIZE && (u != [] ==> u[0] == P.NextCrc(c, ups))
    && P.Data(fs) == t + (P.Stream(c, ups) + u)
  }

  /** The frames carry the user packets `ups` from the first boundary on. */
  ghost predicate Carries(hem: bool, fs: seq<P.Frame>, ups: seq<seq<Byte>>) {
    if fs == [] then ups == []
    else if hem then exists t, u :: HemField(fs, t, ups, u)
    else exists t, c: Byte, u :: NormalField(fs, t, c, ups, u)
  }

  lemma CarriedComesOut(hem: bool, fs: seq<P.Frame>, ups: seq<seq<Byte>>)
    requires Carries(hem, fs, ups)
    ensures var r := P.FoldFrames(FreshState().(hem := hem), fs); r.ok && r.packets == ups
  {
    hide P.FoldFrames, HemField, NormalField;
    var v := FreshState().(hem := hem);
    if fs == [] {
      NoFrames(v);
    } else if hem {
      var t, u :| HemField(fs, t, ups, u);
      HemOut(v, fs, t, ups, u);
    } else {
      var t, c: Byte, u :| NormalField(fs, t, c, ups, u);
      NormalOut(v, fs, t, c, ups, u);
    }
  }

  lemma NoFrames(v: State)
    requires Regular(v)
    ensures P.FoldFrames(v, []) == Out(v, [], true)
  {
  }

  lemma HemOut(v: State, fs: seq<P.Frame>, t: seq<Byte>, ups: seq<seq<Byte>>, u: seq<Byte>)
    requires HemField(fs, t, ups, u) && v == FreshState().(hem := true)
    ensures P.FoldFrames(v, fs).ok && P.FoldFrames(v, fs).packets == ups
  {
    hide P.FoldFrames, P.UserData, P.Data;
    P.HemRoundTrip(v, fs, t, ups, u);
  }

  lemma NormalOut(v: State, fs: seq<P.Frame>, t: seq<Byte>, c: Byte, ups: seq<seq<Byte>>, u: seq<Byte>)
    requires NormalField(fs, t, c, ups, u) && v == FreshState()
    ensures P.FoldFrames(v, fs).ok && P.FoldFrames(v, fs).packets == ups
  {
    hide P.FoldFrames, P.Stream, P.Data, P.NextCrc;
    P.NormalRoundTrip(v, fs, t, c, ups, u);
  }

  /** What a sender of T2-MI packets for the pipes in `modes` keeps to; `ups` is what each carries. */
  ghost predicate WellSent(ps: seq<T2Packet>, modes: map<int, bool>, ups: map<int, seq<seq<Byte>>>) {
    && AllWellFormed(ps) && Counted(-1, ps) && Routed(modes.Keys, -1, false, ps) && ups.Keys == modes.Keys && -1 !in modes
    && forall k :: k in modes ==>
         && OneMode(For(modes.Keys, -1, ps, k), modes[k])
         && Carries(modes[k], Frames(For(modes.Keys, -1, ps, k)), ups[k])
  }

  lemma EmptyOut(out: seq<seq<Byte>>)
    ensures [] + out == out
  {
  }

  /** Every stream puts out exactly the user packets it was sent, and no checksum is found wrong. */
  lemma UserPacketsArrive(ps: seq<T2Packet>, modes: map<int, bool>, ups: map<int, seq<seq<Byte>>>)
    requires WellSent(ps, modes, ups)
    ensures var t := Started(NewRxs(modes.Keys));
            var u := AfterStart(modes.Keys, Concat(Units(ps)));
            && Between(u) && u.crc32Errors == 0 && u.crc8Errors == 0 && u.ccErrors == 0 && u.synced == (ps != [])
            && u.rxs.Keys == modes.Keys && forall k :: k in modes ==> u.rxs[k].out == ups[k]
  {
    hide For, Frames, OneMode, Carries, P.FoldFrames, AfterAll, Ok, FoldT;
    var t := Started(NewRxs(modes.Keys));
    StartedOk(modes.Keys);
    forall k | k in modes
      ensures Takes(t.rxs[k], modes[k], For(modes.Keys, -1, ps, k)) && Total(t.rxs[k], modes[k], For(modes.Keys, -1, ps, k)) == ups[k]
    {
      CarriedComesOut(modes[k], Frames(For(modes.Keys, -1, ps, k)), ups[k]);
      EmptyOut(ups[k]);
    }
    Delivery(t, ps, modes);
    Reframing(t, ps);
  }

  lemma StartedOk(keys: set<int>)
    requires -1 !in keys
    ensures Between(Started(NewRxs(keys)))
  {
  }

  /** The reframer once it has read `x` from a packet start on. */
  function AfterStart(keys: set<int>, x: seq<Byte>): Reframer
    requires -1 !in keys
  {
    StartedOk(keys);
    FoldT(Started(NewRxs(keys)), x)
  }
}
