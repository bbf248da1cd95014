/**
 * Round trips through the BBFrame extractor: a stream of user packets, cut into data fields
 * anywhere, comes out packet by packet; and the first data field decides whether it does.
 */
module BbFramesProofs {
  import opened Bytes
  import opened Crc
  import opened BbFrames

  /** A baseband frame: `syncd` bytes of `data` precede the first user packet that starts in it. */
  datatype Frame = Frame(syncd: nat, data: seq<Byte>, padding: seq<Byte>)

  function BeginFrame(v: State, f: Frame): State {
    v.(left := |f.data|, syncd := f.syncd)
  }

  /** Frame after frame, until the extractor gives up. */
  function FoldFrames(v: State, fs: seq<Frame>): Out
    requires Regular(v)
    decreases |fs|
  {
    if fs == [] then Out(v, [], true) else
      var w := BeginFrame(v, fs[0]);
      FoldRegular(w, fs[0].data + fs[0].padding);
      var first := Fold(w, fs[0].data + fs[0].padding);
      if !first.ok then first else
        var rest := FoldFrames(first.v, fs[1..]);
        Out(rest.v, first.packets + rest.packets, rest.ok)
  }

  function Data(fs: seq<Frame>): seq<Byte> {
    if fs == [] then [] else fs[0].data + Data(fs[1..])
  }

  lemma FramesStep(v: State, f: Frame, fs: seq<Frame>)
    requires Regular(v)
    ensures var w := BeginFrame(v, f);
            var first := Fold(w, f.data + f.padding);
            && Regular(w) && Regular(first.v)
            && (!first.ok ==> FoldFrames(v, [f] + fs) == first)
            && (first.ok ==>
                  var rest := FoldFrames(first.v, fs);
                  FoldFrames(v, [f] + fs) == Out(rest.v, first.packets + rest.packets, rest.ok))
    ensures Data([f] + fs) == f.data + Data(fs)
  {
    hide Fold, Regular;
    RegularBegin(v, f);
    FoldRegular(BeginFrame(v, f), f.data + f.padding);
    assert ([f] + fs)[1..] == fs;
  }

  lemma RegularBegin(v: State, f: Frame)
    requires Regular(v)
    ensures Regular(BeginFrame(v, f))
  {
  }

  predicate UserPacket(u: seq<Byte>) {
    |u| == 188 && u[0] == 0x47
  }

  /** Whatever the data, what is put out has the form of transport packets. */
  lemma {:induction false} OutputsArePackets(v: State, x: seq<Byte>)
    requires Regular(v)
    ensures UserPackets(Fold(v, x).packets)
    decreases |x|
  {
    if x != [] {
      StepRegular(v, x[0]);
      if Step(v, x[0]).ok { OutputsArePackets(Step(v, x[0]).v, x[1..]); }
    }
  }

  predicate UserPackets(ups: seq<seq<Byte>>) {
    forall i :: 0 <= i < |ups| ==> UserPacket(ups[i])
  }

  // ---------------------------------------------------------------------------------------------
  // High efficiency mode
  // ---------------------------------------------------------------------------------------------

  const BODY := 187

  /** What is sent of user packets: everything but their sync bytes. */
  function UserData(ups: seq<seq<Byte>>): seq<Byte>
    requires UserPackets(ups)
  {
    if ups == [] then [] else ups[0][1..] + UserData(ups[1..])
  }

  /** The complete user packets in `b`, sync byte restored, and the bytes behind the last one. */
  function Packets(b: seq<Byte>): seq<seq<Byte>> {
    if |b| >= BODY then [[SYNC] + b[..BODY]] + Packets(b[BODY..]) else []
  }

  function Remainder(b: seq<Byte>): (r: seq<Byte>)
    ensures |r| < BODY
  {
    if |b| >= BODY then Remainder(b[BODY..]) else b
  }

  lemma {:induction false} PacketsExtend(b: seq<Byte>, x: seq<Byte>)
    ensures Packets(b + x) == Packets(b) + Packets(Remainder(b) + x)
    ensures Remainder(b + x) == Remainder(Remainder(b) + x)
  {
    if |b| >= BODY {
      PacketsExtend(b[BODY..], x);
      assert (b + x)[BODY..] == b[BODY..] + x;
      assert (b + x)[..BODY] == b[..BODY];
    }
  }

  lemma {:induction false} PacketsOfUserData(ups: seq<seq<Byte>>, u: seq<Byte>)
    requires UserPackets(ups) && |u| < BODY
    ensures Packets(UserData(ups) + u) == ups && Remainder(UserData(ups) + u) == u
  {
    if ups == [] {
      assert UserData(ups) + u == u;
    } else {
      PacketsOfUserData(ups[1..], u);
      var b := UserData(ups) + u;
      Associative(ups[0][1..], UserData(ups[1..]), u);
      assert b[..BODY] == ups[0][1..];
      assert b[BODY..] == UserData(ups[1..]) + u;
      assert [SYNC] + ups[0][1..] == ups[0];
    }
  }

  ghost predicate InStep(v: State) {
    Regular(v) && v.synced && v.hem
  }

  /** Body bytes of the packet in progress. */
  function Body(v: State): seq<Byte>
    requires v.got != []
  {
    v.got[1..]
  }

  lemma {:induction false} HemBytes(v: State, x: seq<Byte>)
    requires InStep(v) && |x| <= v.left
    ensures var b := Body(v) + x;
            Fold(v, x) == Out(v.(left := v.left - |x|, got := [SYNC] + Remainder(b)), Packets(b), true)
    decreases |x|
  {
    hide Fold, Remainder, Packets;
    var g := Body(v);
    assert v.got == [SYNC] + g;
    var n := Min(TS_SIZE - |v.got|, |x|);
    var head, tail := x[..n], x[n..];
    assert x == head + tail;
    FoldCollect(v, head);
    if n < TS_SIZE - |v.got| {
      assert head == x;
      SmallBody(g + x);
      assert v.got + x == [SYNC] + (g + x);
    } else {
      var w := Fold(v, head).v;
      WholeBody(g + head, tail);
      Associative(g, head, tail);
      HemBytes(w, tail);
      assert Body(w) + tail == tail;
      FoldSplit(v, head, tail);
      assert v.got + head == [SYNC] + (g + head);
    }
  }

  lemma SmallBody(b: seq<Byte>)
    requires |b| < BODY
    ensures Packets(b) == [] && Remainder(b) == b
  {
  }

  lemma WholeBody(b: seq<Byte>, x: seq<Byte>)
    requires |b| == BODY
    ensures Packets(b + x) == [[SYNC] + b] + Packets(x) && Remainder(b + x) == Remainder(x)
  {
    assert (b + x)[..BODY] == b && (b + x)[BODY..] == x;
  }

  /** A whole frame, with any padding behind its data. */
  lemma HemFrame(v: State, x: seq<Byte>, padding: seq<Byte>)
    requires InStep(v) && |x| == v.left
    ensures var b := Body(v) + x;
            Fold(v, x + padding) == Out(v.(left := 0, got := [SYNC] + Remainder(b)), Packets(b), true)
  {
    hide Fold, Remainder, Packets;
    HemBytes(v, x);
    FoldSplit(v, x, padding);
    FoldPadding(Fold(v, x).v, padding);
  }

  lemma {:induction false} HemFrames(v: State, fs: seq<Frame>)
    requires InStep(v)
    ensures FoldFrames(v, fs).ok && FoldFrames(v, fs).packets == Packets(Body(v) + Data(fs))
    decreases |fs|
  {
    hide Fold, Packets, Remainder, Regular;
    if fs == [] {
      assert |Body(v)| < BODY by { BodySize(v); }
      assert Body(v) + Data(fs) == Body(v);
      SmallBody(Body(v));
    } else {
      var f, w := fs[0], BeginFrame(v, fs[0]);
      assert fs == [f] + fs[1..];
      FramesStep(v, f, fs[1..]);
      BodySize(v);
      HemFrame(w, f.data, f.padding);
      var b := Body(v) + f.data;
      var next := Fold(w, f.data + f.padding).v;
      assert Body(next) == Remainder(b);
      HemFrames(next, fs[1..]);
      PacketsExtend(b, Data(fs[1..]));
      Associative(Body(v), f.data, Data(fs[1..]));
    }
  }

  lemma BodySize(v: State)
    requires InStep(v)
    ensures v.got != [] && |Body(v)| < BODY
  {
  }

  /** A fresh extractor at the first frame: it skips exactly up to the first user packet. */
  lemma FirstFrame(v: State, f: Frame, t: seq<Byte>, d: seq<Byte>)
    requires Regular(v) && !v.synced && v.skip == 0
    requires f.data == t + d && f.syncd == |t| && f.data != []
    ensures var w := AtStart(BeginFrame(v, f)).(left := |d|);
            Regular(w) && Fold(BeginFrame(v, f), f.data + f.padding) == Fold(w, d + f.padding)
  {
    hide Fold;
    var w := BeginFrame(v, f);
    if t == [] {
      assert f.data + f.padding == d + f.padding;
      FoldFromStart(w, d + f.padding);
    } else {
      FoldSkip(w, t);
      Associative(t, d, f.padding);
      FoldSplit(w, t, d + f.padding);
      assert [] + Fold(Fold(w, t).v, d + f.padding).packets == Fold(Fold(w, t).v, d + f.padding).packets;
    }
  }

  /**
   * High efficiency mode. `t` is the end of a user packet already under way, `u` the beginning of
   * one still incomplete. However the stream is cut into data fields and whatever padding follows
   * them, exactly the complete user packets come out.
   */
  lemma HemRoundTrip(v: State, fs: seq<Frame>, t: seq<Byte>, ups: seq<seq<Byte>>, u: seq<Byte>)
    requires Regular(v) && !v.synced && v.skip == 0 && v.hem
    requires UserPackets(ups) && |u| < BODY && Data(fs) == t + (UserData(ups) + u)
    requires fs != [] && fs[0].data != [] && fs[0].syncd == |t| <= |fs[0].data|
    ensures FoldFrames(v, fs).ok && FoldFrames(v, fs).packets == ups
  {
    hide Fold, Packets, Remainder, Data, UserData, FoldFrames;
    var f, fs' := fs[0], fs[1..];
    var d := f.data[|t|..];
    assert fs == [f] + fs';
    FramesStep(v, f, fs');
    SplitFirst(f.data, Data(fs'), t, UserData(ups) + u);
    FirstFrame(v, f, t, d);
    HemFromFirst(AtStart(BeginFrame(v, f)).(left := |d|), d, f.padding, fs');
    PacketsOfUserData(ups, u);
  }

  lemma SplitFirst(data: seq<Byte>, more: seq<Byte>, t: seq<Byte>, body: seq<Byte>)
    requires data + more == t + body && |t| <= |data|
    ensures data == t + data[|t|..] && body == data[|t|..] + more
  {
    assert data[..|t|] == (data + more)[..|t|] == (t + body)[..|t|] == t;
    assert body == (t + body)[|t|..] == (data + more)[|t|..];
  }

  /** The first frame from the start of a user packet on, and the frames after it. */
  lemma HemFromFirst(w: State, d: seq<Byte>, padding: seq<Byte>, fs: seq<Frame>)
    requires InStep(w) && w.got == [SYNC] && w.left == |d|
    ensures var first := Fold(w, d + padding);
            && first.ok && Regular(first.v) && FoldFrames(first.v, fs).ok
            && first.packets + FoldFrames(first.v, fs).packets == Packets(d + Data(fs))
  {
    hide Fold, Packets, Remainder, Data, FoldFrames;
    HemFrame(w, d, padding);
    assert Body(w) + d == d;
    var next := Fold(w, d + padding).v;
    assert Body(next) == Remainder(d);
    HemFrames(next, fs);
    PacketsExtend(d, Data(fs));
  }

  // ---------------------------------------------------------------------------------------------
  // Normal mode
  // ---------------------------------------------------------------------------------------------

  /** Each sync byte is replaced by the checksum of the packet before; `c` stands in the first. */
  function Stream(c: Byte, ups: seq<seq<Byte>>): seq<Byte>
    requires UserPackets(ups)
    decreases |ups|
  {
    if ups == [] then [] else [c] + ups[0][1..] + Stream(Crc8(0, ups[0][1..]), ups[1..])
  }

  /** The checksum that belongs in front of what follows `ups`. */
  function NextCrc(c: Byte, ups: seq<seq<Byte>>): Byte
    requires UserPackets(ups)
    decreases |ups|
  {
    if ups == [] then c else NextCrc(Crc8(0, ups[0][1..]), ups[1..])
  }

  ghost predicate AtBoundary(v: State, c: Byte) {
    Regular(v) && v.synced && !v.hem && v.got == [] && (v.crc == -1 || v.crc == c)
  }

  lemma OneUserPacket(v: State, c: Byte, up: seq<Byte>)
    requires AtBoundary(v, c) && UserPacket(up)
    ensures var r := Fold(v, [c] + up[1..]);
            r == Out(v.(left := v.left - TS_SIZE, crc := Crc8(0, up[1..])), [up], true)
  {
    hide Fold, Crc8;
    FoldSyncByte(v, c);
    FoldSplit(v, [c], up[1..]);
    FoldCollect(Fold(v, [c]).v, up[1..]);
    assert [SYNC] + up[1..] == up;
    assert [] + [up] == [up];
  }

  lemma {:induction false} WholeStream(v: State, c: Byte, ups: seq<seq<Byte>>)
    requires AtBoundary(v, c) && UserPackets(ups)
    ensures Fold(v, Stream(c, ups)).ok && Fold(v, Stream(c, ups)).packets == ups
    ensures AtBoundary(Fold(v, Stream(c, ups)).v, NextCrc(c, ups))
    ensures if ups == [] then Fold(v, Stream(c, ups)).v == v else Fold(v, Stream(c, ups)).v.crc == NextCrc(c, ups)
    decreases |ups|
  {
    hide Fold, Crc8;
    if ups == [] {
      FoldNothing(v);
    } else {
      var c' := Crc8(0, ups[0][1..]);
      var x := [c] + ups[0][1..];
      OneUserPacket(v, c, ups[0]);
      FoldSplit(v, x, Stream(c', ups[1..]));
      WholeStream(Fold(v, x).v, c', ups[1..]);
      assert ups == [ups[0]] + ups[1..];
    }
  }

  /**
   * A byte that is not the checksum of the user packet before it ends the extraction: that packet has
   * been put out by then, and nothing behind it is.
   */
  lemma WrongChecksum(v: State, c: Byte, ups: seq<seq<Byte>>, b: Byte, more: seq<Byte>)
    requires AtBoundary(v, c) && UserPackets(ups) && ups != [] && b != NextCrc(c, ups)
    ensures var r := Fold(v, Stream(c, ups) + ([b] + more)); !r.ok && r.packets == ups
  {
    hide Stream, NextCrc, UserPackets;
    WholeStream(v, c, ups);
    FoldSplit(v, Stream(c, ups), [b] + more);
    var w := Fold(v, Stream(c, ups)).v;
    assert ([b] + more)[0] == b;
    assert Fold(w, [b] + more) == Out(w, [], false);
    assert ups + [] == ups;
  }

  lemma FoldNothing(v: State)
    requires Regular(v)
    ensures Fold(v, []) == Out(v, [], true)
  {
  }

  /** An incomplete packet at the end is kept back. */
  lemma LastPiece(v: State, c: Byte, u: seq<Byte>)
    requires AtBoundary(v, c) && |u| < TS_SIZE && (u != [] ==> u[0] == c)
    ensures Fold(v, u).ok && Fold(v, u).packets == []
  {
    hide Fold, Crc8;
    if u == [] {
      FoldNothing(v);
    } else {
      assert u == [c] + u[1..];
      FoldSyncByte(v, c);
      FoldSplit(v, [c], u[1..]);
      FoldCollect(Fold(v, [c]).v, u[1..]);
    }
  }

  /** Equal but for the bookkeeping a new header resets. */
  predicate SameButHeader(v: State, w: State) {
    v.(left := w.left, syncd := w.syncd) == w
  }

  /** In normal mode the data field length is not looked at. */
  lemma {:induction false} HeaderIrrelevant(v: State, w: State, x: seq<Byte>)
    requires Regular(v) && Regular(w) && v.synced && !v.hem && SameButHeader(v, w)
    ensures Fold(v, x).ok == Fold(w, x).ok && Fold(v, x).packets == Fold(w, x).packets
    ensures SameButHeader(Fold(v, x).v, Fold(w, x).v) && Fold(v, x).v.synced
    decreases |x|
  {
    if x != [] {
      StepSame(v, w, x[0]);
      StepRegular(v, x[0]);
      StepRegular(w, x[0]);
      hide Step;
      if Step(v, x[0]).ok {
        HeaderIrrelevant(Step(v, x[0]).v, Step(w, x[0]).v, x[1..]);
      }
    }
  }

  lemma StepSame(v: State, w: State, b: Byte)
    requires Regular(v) && Regular(w) && v.synced && !v.hem && SameButHeader(v, w)
    ensures Step(v, b).ok == Step(w, b).ok && Step(v, b).packets == Step(w, b).packets
    ensures SameButHeader(Step(v, b).v, Step(w, b).v) && Step(v, b).v.synced && !Step(v, b).v.hem
  {
  }

  predicate NoPadding(fs: seq<Frame>) {
    forall i :: 0 <= i < |fs| ==> fs[i].padding == []
  }

  /** So frames are as good as one long data field. */
  lemma {:induction false} FramesAreOneField(v: State, fs: seq<Frame>)
    requires Regular(v) && v.synced && !v.hem && NoPadding(fs)
    ensures FoldFrames(v, fs).ok == Fold(v, Data(fs)).ok
    ensures FoldFrames(v, fs).ok ==> FoldFrames(v, fs).packets == Fold(v, Data(fs)).packets
    decreases |fs|
  {
    hide Fold, Regular;
    if fs == [] {
      FoldNothing(v);
    } else {
      var f, w := fs[0], BeginFrame(v, fs[0]);
      assert fs == [f] + fs[1..];
      FramesStep(v, f, fs[1..]);
      assert f.data + f.padding == f.data;
      HeaderIrrelevant(v, w, f.data);
      FoldSplit(v, f.data, Data(fs[1..]));
      FoldRegular(v, f.data);
      FoldRegular(w, f.data);
      var (a, b) := (Fold(v, f.data), Fold(w, f.data));
      if b.ok {
        FramesAreOneField(b.v, fs[1..]);
        HeaderIrrelevant(a.v, b.v, Data(fs[1..]));
      }
    }
  }

  /**
   * Normal mode. With exact data fields and correct checksums the complete user packets come out,
   * and no checksum is found wrong.
   */
  lemma NormalRoundTrip(v: State, fs: seq<Frame>, t: seq<Byte>, c: Byte, ups: seq<seq<Byte>>, u: seq<Byte>)
    requires Regular(v) && !v.synced && v.skip == 0 && !v.hem && v.crc == -1 && NoPadding(fs)
    requires UserPackets(ups) && |u| < TS_SIZE && (u != [] ==> u[0] == NextCrc(c, ups))
    requires Data(fs) == t + (Stream(c, ups) + u)
    requires fs != [] && fs[0].data != [] && fs[0].syncd == |t| <= |fs[0].data|
    ensures FoldFrames(v, fs).ok && FoldFrames(v, fs).packets == ups
  {
    hide Fold, Stream, NextCrc, Data, FoldFrames;
    var f, fs' := fs[0], fs[1..];
    var d := f.data[|t|..];
    assert fs == [f] + fs';
    FramesStep(v, f, fs');
    SplitFirst(f.data, Data(fs'), t, Stream(c, ups) + u);
    FirstFrame(v, f, t, d);
    assert d + f.padding == d;
    var w := AtStart(BeginFrame(v, f)).(left := |d|);
    WholeStream(w, c, ups);
    FoldSplit(w, Stream(c, ups), u);
    LastPiece(Fold(w, Stream(c, ups)).v, NextCrc(c, ups), u);
    assert ups + [] == ups;
    NormalFromFirst(w, d, fs');
  }

  /** The first frame from the start of a user packet on, and the frames after it. */
  lemma NormalFromFirst(w: State, d: seq<Byte>, fs: seq<Frame>)
    requires Regular(w) && w.synced && !w.hem && NoPadding(fs) && Fold(w, d + Data(fs)).ok
    ensures var first := Fold(w, d);
            && first.ok && Regular(first.v) && FoldFrames(first.v, fs).ok
            && first.packets + FoldFrames(first.v, fs).packets == Fold(w, d + Data(fs)).packets
  {
    hide Fold, Data, FoldFrames;
    FoldSplit(w, d, Data(fs));
    StaysSynced(w, d);
    FramesAreOneField(Fold(w, d).v, fs);
  }

  lemma {:induction false} StaysSynced(v: State, x: seq<Byte>)
    requires Regular(v) && v.synced
    ensures Fold(v, x).v.synced && Fold(v, x).v.hem == v.hem
    decreases |x|
  {
    FoldRegular(v, x);
    if x != [] {
      StepRegular(v, x[0]);
      if Step(v, x[0]).ok { StaysSynced(Step(v, x[0]).v, x[1..]); }
    }
  }

  // ---------------------------------------------------------------------------------------------
  // The first data field decides
  // ---------------------------------------------------------------------------------------------

  /**
   * A fresh extractor is in step after a non-empty first data field exactly when a user packet
   * starts in it or right behind it; otherwise it has only counted the bytes.
   */
  lemma SyncedAfterFirstExactlyWhen(v: State, f: Frame)
    requires Regular(v) && !v.synced && v.skip == 0 && f.data != []
    ensures Fold(BeginFrame(v, f), f.data).v.synced <==> f.syncd <= |f.data|
    ensures f.syncd > |f.data| ==>
              Fold(BeginFrame(v, f), f.data) == Out(BeginFrame(v, f).(skip := |f.data|, left := 0), [], true)
  {
    hide Fold;
    var w := BeginFrame(v, f);
    if f.syncd > |f.data| {
      FoldSkip(w, f.data);
    } else {
      var t, d := f.data[..f.syncd], f.data[f.syncd..];
      assert f.data == t + d && f.data + [] == f.data && d + [] == d;
      FirstFrame(v, f.(padding := []), t, d);
      StaysSynced(AtStart(w).(left := |d|), d);
    }
  }

  /**
   * If not, the bytes skipped so far are wrongly held against the next frame's count. The first
   * packet is begun that many bytes too early, at the very first byte of the frame when the two are
   * the same; when the frame's own count is smaller, data and padding are all passed over. When what
   * is still to be skipped does not fit into the data, the search goes on in the frame after, unless
   * there is padding: then it fails.
   */
  lemma MissedBoundary(v: State, f: Frame)
    requires Regular(v) && !v.synced && v.skip > 0
    ensures var w, x, ahead := BeginFrame(v, f), f.data + f.padding, f.syncd - v.skip;
            && (ahead < 0 ==> Fold(w, x) == Out(w, [], true))
            && (ahead == 0 && x != [] ==> Fold(w, x) == Fold(AtStart(w), x))
            && (0 < ahead <= |f.data| ==> Fold(w, x) == Fold(AtStart(w.(left := |f.data| - ahead)), x[ahead..]))
            && (ahead > |f.data| && f.padding == [] ==>
                  Fold(w, x) == Out(w.(skip := v.skip + |f.data|, left := 0), [], true))
            && (ahead > |f.data| && f.padding != [] ==> !Fold(w, x).ok)
  {
    hide Fold;
    var w, x, ahead := BeginFrame(v, f), f.data + f.padding, f.syncd - v.skip;
    if ahead < 0 {
      FoldStuck(w, x);
    } else if ahead == 0 {
      if x != [] { SameFirstStep(w, AtStart(w), x); }
    } else if ahead <= |f.data| {
      FoldSkip(w, x[..ahead]);
      FoldSplit(w, x[..ahead], x[ahead..]);
      assert x == x[..ahead] + x[ahead..];
      var rest := Fold(AtStart(w.(left := |f.data| - ahead)), x[ahead..]);
      assert [] + rest.packets == rest.packets;
    } else if f.padding == [] {
      assert x == f.data;
      FoldSkip(w, x);
    } else {
      FoldSkipFails(w, x);
    }
  }

  lemma SameFirstStep(v: State, w: State, x: seq<Byte>)
    requires Regular(v) && Regular(w) && x != [] && Step(v, x[0]) == Step(w, x[0])
    ensures Fold(v, x) == Fold(w, x)
  {
    hide Step;
  }
}
