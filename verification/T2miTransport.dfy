/**
 * T2-MI packets in transport packets: cut at any byte positions, with the pointer of each transport
 * packet at the first T2-MI packet that starts in it, they mean the same as uncut.
 */
module T2miTransport {
  import opened Bytes
  import opened Crc
  import opened BbFrames
  import opened T2mi
  import opened T2miStreams
  import opened T2miProofs
  import opened T2miRoundTrip

  // ---------------------------------------------------------------------------------------------
  // The sender
  // ---------------------------------------------------------------------------------------------

  /** What is still to be sent once `n` bytes of `rest`, and then of `us`, are gone. */
  function Advance(rest: seq<Byte>, us: seq<seq<Byte>>, n: nat): (seq<Byte>, seq<seq<Byte>>)
    requires n <= |rest| + |Concat(us)|
    decreases |us|
  {
    if n <= |rest| then (rest[n..], us) else Advance(us[0], us[1..], n - |rest|)
  }

  lemma {:induction false} AdvanceDrops(rest: seq<Byte>, us: seq<seq<Byte>>, n: nat)
    requires n <= |rest| + |Concat(us)|
    ensures var (rest', us') := Advance(rest, us, n); rest' + Concat(us') == (rest + Concat(us))[n..]
    decreases |us|
  {
    if n <= |rest| {
      assert (rest + Concat(us))[n..] == rest[n..] + Concat(us);
    } else {
      AdvanceDrops(us[0], us[1..], n - |rest|);
      assert (rest + Concat(us))[n..] == (us[0] + Concat(us[1..]))[n - |rest|..];
    }
  }

  /** `size` bytes fit into a packet, with the pointer if a T2-MI packet starts among them. */
  predicate SizeOk(rest: seq<Byte>, us: seq<seq<Byte>>, size: nat) {
    1 <= size <= |rest| + |Concat(us)| && size + (if size > |rest| then 1 else 0) <= 184
  }

  predicate SizesOk(rest: seq<Byte>, us: seq<seq<Byte>>, sizes: seq<nat>)
    decreases |sizes|
  {
    if sizes == [] then rest == [] && us == []
    else
      SizeOk(rest, us, sizes[0]) &&
      (var (rest', us') := Advance(rest, us, sizes[0]); SizesOk(rest', us', sizes[1..]))
  }

  function Cut(rest: seq<Byte>, us: seq<seq<Byte>>, size: nat): (b: seq<Byte>)
    requires SizeOk(rest, us, size)
    ensures 1 <= |b| <= 184
  {
    (if size > |rest| then [|rest|] else []) + (rest + Concat(us))[..size]
  }

  /** The end `rest` of a T2-MI packet already begun, then `us`; counters follow on `cc`. */
  function Packetise(pid: int, rest: seq<Byte>, us: seq<seq<Byte>>, sizes: seq<nat>, cc: nat): (tss: seq<Ts>)
    requires SizesOk(rest, us, sizes)
    ensures |tss| == |sizes| && forall i :: 0 <= i < |tss| ==> tss[i].cc < 16 && 1 <= |tss[i].payload| <= 184
    decreases |sizes|
  {
    if sizes == [] then [] else
      var (rest', us') := Advance(rest, us, sizes[0]);
      [Ts(pid, false, sizes[0] > |rest|, (cc + 1) % 16, false, Cut(rest, us, sizes[0]))]
      + Packetise(pid, rest', us', sizes[1..], (cc + 1) % 16)
  }

  lemma PacketiseFirst(pid: int, rest: seq<Byte>, us: seq<seq<Byte>>, sizes: seq<nat>, cc: nat)
    requires SizesOk(rest, us, sizes) && sizes != []
    ensures SizeOk(rest, us, sizes[0])
    ensures var (rest', us') := Advance(rest, us, sizes[0]);
            && SizesOk(rest', us', sizes[1..])
            && Packetise(pid, rest, us, sizes, cc)
               == [Ts(pid, false, sizes[0] > |rest|, (cc + 1) % 16, false, Cut(rest, us, sizes[0]))]
                  + Packetise(pid, rest', us', sizes[1..], (cc + 1) % 16)
  {
  }

  // ---------------------------------------------------------------------------------------------
  // The receiver
  // ---------------------------------------------------------------------------------------------

  lemma OnPacketOk(t: Reframer, pid: int, ts: Ts)
    requires Ok(t) && ts.cc < 16
    ensures Ok(OnPacket(t, pid, ts))
  {
    hide FoldT, RxOk, Relevant, PointerOverruns;
    ResetRxsOk(t);
    if !Ignored(t, pid, ts) && !CcError(t, ts) {
      CcOk(t, ts.cc);
      if !PointerOverruns(ts.pusi, ts.payload) {
        FoldTOk(t.(cc := ts.cc), Relevant(t.synced, ts.pusi, ts.payload));
      }
    }
  }

  function OnPackets(t: Reframer, pid: int, tss: seq<Ts>): Reframer
    requires Ok(t) && forall i :: 0 <= i < |tss| ==> tss[i].cc < 16
    decreases |tss|
  {
    if tss == [] then t else
      OnPacketOk(t, pid, tss[0]);
      OnPackets(OnPacket(t, pid, tss[0]), pid, tss[1..])
  }

  lemma OnPacketsFirst(t: Reframer, pid: int, ts: Ts, tss: seq<Ts>)
    requires Ok(t) && ts.cc < 16 && forall i :: 0 <= i < |tss| ==> tss[i].cc < 16
    ensures Ok(OnPacket(t, pid, ts)) && OnPackets(t, pid, [ts] + tss) == OnPackets(OnPacket(t, pid, ts), pid, tss)
  {
    hide Ok, OnPacket;
    OnPacketOk(t, pid, ts);
    assert ([ts] + tss)[1..] == tss;
  }

  lemma CcHeader(t: Reframer, c: int, h: seq<Byte>)
    requires |h| == HEADER_SIZE
    ensures AfterHeader(t.(cc := c), h) == AfterHeader(t, h).(cc := c)
  {
    hide Crc32, Be16;
  }

  lemma CcFrame(t: Reframer, c: int, hem: bool, header: seq<Byte>, left: int)
    requires |header| == 10 && (t.current != -1 ==> t.current in t.rxs)
    ensures var r := FrameBegins(t, hem, header, left);
            !r.bad && !r.drop ==> FrameBegins(t.(cc := c), hem, header, left) == r.(cc := c)
  {
    hide ModeOk, LengthsOk, OnHeader, ResetRxs;
  }

  lemma CcBbheader(t: Reframer, c: int, b: seq<Byte>, left: int)
    requires |b| == BBHEADER_SIZE
    ensures var r := AfterBbheader(t, b, left);
            !r.bad && !r.drop ==> AfterBbheader(t.(cc := c), b, left) == r.(cc := c)
  {
    hide Crc32, Crc8, ModeBits, FrameBegins, Select;
    var u := t.(phase := Head([]), crc := Crc32(t.crc, b));
    assert t.(cc := c).(phase := Head([]), crc := Crc32(t.crc, b)) == u.(cc := c);
    var mode := ModeBits(Crc8(0, b[3..13][..9]), b[12]);
    if mode & 0xfe == 0 {
      var defaultPlp := if t.defaultPlp < 0 then b[1] else t.defaultPlp;
      var k := Select(t.rxs.Keys, defaultPlp, b[1]);
      SelectKnown(t.rxs.Keys, defaultPlp, b[1]);
      var w := u.(defaultPlp := defaultPlp, current := k);
      assert u.(cc := c).(defaultPlp := defaultPlp, current := k) == w.(cc := c);
      CcFrame(w, c, mode == 1, b[3..13], left);
    }
  }

  lemma SelectKnown(keys: set<int>, defaultPlp: int, plp: int)
    ensures Select(keys, defaultPlp, plp) == -1 || Select(keys, defaultPlp, plp) in keys
  {
  }

  /** The counter of transport packets means nothing to the reframer proper. */
  lemma CcStep(t: Reframer, c: int, x: Byte)
    requires Ok(t) && Ok(t.(cc := c)) && !StepT(t, x).bad && !StepT(t, x).drop
    ensures StepT(t.(cc := c), x) == StepT(t, x).(cc := c)
  {
    hide Crc32, Fold, AfterHeader, AfterBbheader, RxOk;
    match t.phase
    case Head(h) => if |h| + 1 == HEADER_SIZE { CcHeader(t, c, h + [x]); }
    case BbHead(left, b) => if |b| + 1 == BBHEADER_SIZE { CcBbheader(t, c, b + [x], left); }
    case Body(frame, left) => if frame { assert RxOk(t.rxs[t.current]); BodyRegular(t); }
    case Tail(n) =>
    case Lost =>
  }

  lemma BodyRegular(t: Reframer)
    requires Ok(t) && t.phase.Body?
    ensures t.current in t.rxs && Regular(t.rxs[t.current].v)
  {
    assert RxOk(t.rxs[t.current]);
  }

  /** As long as nothing goes wrong. */
  lemma {:induction false} CcDoesNotMatter(t: Reframer, c: int, x: seq<Byte>)
    requires Ok(t) && -1 <= c < 16 && !FoldT(t, x).bad && !FoldT(t, x).drop
    ensures Ok(t.(cc := c)) && FoldT(t.(cc := c), x) == FoldT(t, x).(cc := c)
    decreases |x|
  {
    hide StepT, RxOk;
    assert Ok(t.(cc := c));
    if x != [] {
      StepOk(t, x[0]);
      var u := StepT(t, x[0]);
      if u.bad || u.drop { FoldDrop(u, x[1..]); }
      CcStep(t, c, x[0]);
      CcDoesNotMatter(u, c, x[1..]);
    }
  }

  lemma {:induction false} StaysSynced(t: Reframer, x: seq<Byte>)
    requires Ok(t) && t.synced && !FoldT(t, x).bad && !FoldT(t, x).drop
    ensures FoldT(t, x).synced
    decreases |x|
  {
    hide StepT, Ok;
    if x != [] {
      StepOk(t, x[0]);
      var u := StepT(t, x[0]);
      if u.bad || u.drop { FoldDrop(u, x[1..]); }
      StepSynced(t, x[0]);
      StaysSynced(u, x[1..]);
    }
  }

  lemma StepSynced(t: Reframer, x: Byte)
    requires Ok(t) && t.synced && !StepT(t, x).bad && !StepT(t, x).drop
    ensures StepT(t, x).synced
  {
    hide Crc32, Fold, RxOk, Crc8, ModeBits, Select, OnHeader, ModeOk, LengthsOk, Be16;
    if t.phase.Body? && t.phase.frame { BodyRegular(t); }
  }

  /** A packet in sequence, or the first after a reset. */
  predicate InSequence(t: Reframer, cc: nat) {
    cc < 16 && (t.cc == -1 || t.cc == cc)
  }

  /** What a reframer already in step reads of a packet, and what one still waiting does. */
  lemma Read(synced: bool, rest: seq<Byte>, us: seq<seq<Byte>>, size: nat)
    requires SizeOk(rest, us, size) && (!synced ==> size > |rest|)
    ensures var b := Cut(rest, us, size);
            var pusi := size > |rest|;
            && !PointerOverruns(pusi, b)
            && Relevant(synced, pusi, b) == (rest + Concat(us))[..size][if synced then 0 else |rest|..]
  {
    hide Concat;
    var b, piece := Cut(rest, us, size), (rest + Concat(us))[..size];
    if size > |rest| {
      assert b == [|rest|] + piece;
      assert b[1..] == piece[0..];
      assert b[1 + |rest|..] == piece[|rest|..];
    } else {
      assert b == piece == piece[0..];
    }
  }

  lemma OnCut(t: Reframer, pid: int, rest: seq<Byte>, us: seq<seq<Byte>>, size: nat, cc: nat)
    requires Ok(t) && InSequence(t, cc) && SizeOk(rest, us, size) && (!t.synced ==> size > |rest|)
    requires var x := (rest + Concat(us))[..size][if t.synced then 0 else |rest|..];
             !FoldT(t, x).bad && !FoldT(t, x).drop
    ensures var x := (rest + Concat(us))[..size][if t.synced then 0 else |rest|..];
            OnPacket(t, pid, Ts(pid, false, size > |rest|, (cc + 1) % 16, false, Cut(rest, us, size)))
            == FoldT(t, x).(cc := (cc + 1) % 16)
  {
    hide FoldT, Ok, Concat, Relevant, PointerOverruns, ResetAll, Cut;
    Read(t.synced, rest, us, size);
    var x := (rest + Concat(us))[..size][if t.synced then 0 else |rest|..];
    CcOk(t, (cc + 1) % 16);
    CcDoesNotMatter(t, (cc + 1) % 16, x);
  }

  /** The bytes of a first piece, and all behind them, do no harm if the whole does none. */
  lemma NoHarm(t: Reframer, x: seq<Byte>, y: seq<Byte>)
    requires Ok(t) && !FoldT(t, x + y).bad && !FoldT(t, x + y).drop
    ensures !FoldT(t, x).bad && !FoldT(t, x).drop && Ok(FoldT(t, x)) && FoldT(t, x + y) == FoldT(FoldT(t, x), y)
  {
    hide FoldT, Ok;
    FoldTSplit(t, x, y);
    if FoldT(t, x).bad || FoldT(t, x).drop { FoldDrop(FoldT(t, x), y); }
  }

  lemma {:induction false} InStep(t: Reframer, pid: int, rest: seq<Byte>, us: seq<seq<Byte>>, sizes: seq<nat>, cc: nat)
    requires Ok(t) && t.synced && InSequence(t, cc) && SizesOk(rest, us, sizes)
    requires var x := rest + Concat(us); !FoldT(t, x).bad && !FoldT(t, x).drop
    ensures OnPackets(t, pid, Packetise(pid, rest, us, sizes, cc))
            == FoldT(t, rest + Concat(us)).(cc := if sizes == [] then t.cc else (cc + |sizes|) % 16)
    decreases |sizes|, 0
  {
    hide FoldT, Ok, Concat, Cut, OnPacket, Packetise, OnPackets, SizesOk, Advance, SizeOk;
    var x := rest + Concat(us);
    if sizes == [] {
      NothingToSend(t, pid, rest, us, cc);
    } else {
      var n := sizes[0];
      PacketiseFirst(pid, rest, us, sizes, cc);
      SizeFits(rest, us, n);
      var (rest', us') := Advance(rest, us, n);
      AdvanceDrops(rest, us, n);
      assert x == x[..n] + x[n..];
      assert x[..n][0..] == x[..n];
      NoHarm(t, x[..n], x[n..]);
      OnPacketsFirst(t, pid, Ts(pid, false, n > |rest|, (cc + 1) % 16, false, Cut(rest, us, n)),
                     Packetise(pid, rest', us', sizes[1..], (cc + 1) % 16));
      OnCut(t, pid, rest, us, n, cc);
      var u := FoldT(t, x[..n]);
      StaysSynced(t, x[..n]);
      Onward(u, pid, rest', us', sizes[1..], (cc + 1) % 16);
    }
  }

  lemma SizeFits(rest: seq<Byte>, us: seq<seq<Byte>>, n: nat)
    requires SizeOk(rest, us, n)
    ensures 1 <= n <= |rest| + |Concat(us)|
  {
  }

  lemma NothingToSend(t: Reframer, pid: int, rest: seq<Byte>, us: seq<seq<Byte>>, cc: nat)
    requires Ok(t) && SizesOk(rest, us, [])
    ensures OnPackets(t, pid, Packetise(pid, rest, us, [], cc)) == FoldT(t, rest + Concat(us)) == t
  {
    assert rest + Concat(us) == [];
  }

  /** The same from a packet boundary on, with the counter of the packet before already seen. */
  lemma {:induction false} Onward(u: Reframer, pid: int, rest: seq<Byte>, us: seq<seq<Byte>>, sizes: seq<nat>, cc: nat)
    requires Ok(u) && u.synced && cc < 16 && SizesOk(rest, us, sizes)
    requires var x := rest + Concat(us); !FoldT(u, x).bad && !FoldT(u, x).drop
    ensures Ok(u.(cc := cc))
    ensures OnPackets(u.(cc := cc), pid, Packetise(pid, rest, us, sizes, cc))
            == FoldT(u, rest + Concat(us)).(cc := (cc + |sizes|) % 16)
    decreases |sizes|, 1
  {
    hide FoldT, Ok, Concat, Packetise, OnPackets, SizesOk;
    CcDoesNotMatter(u, cc, rest + Concat(us));
    InStep(u.(cc := cc), pid, rest, us, sizes, cc);
  }

  /**
   * From a reframer that still waits: `rest` is skipped, the packets behind it are read, and how
   * they were cut makes no difference.
   */
  lemma Transport(t: Reframer, pid: int, rest: seq<Byte>, us: seq<seq<Byte>>, sizes: seq<nat>, cc: nat)
    requires Between(t) && !t.synced && InSequence(t, cc) && SizesOk(rest, us, sizes)
    requires sizes != [] && sizes[0] > |rest|
    requires !FoldT(t, Concat(us)).bad && !FoldT(t, Concat(us)).drop
    ensures OnPackets(t, pid, Packetise(pid, rest, us, sizes, cc))
            == FoldT(t, Concat(us)).(cc := (cc + |sizes|) % 16)
  {
    hide FoldT, Ok, Concat, Cut, OnPacket, Packetise, OnPackets, SizesOk, Advance, SizeOk;
    var n := sizes[0];
    PacketiseFirst(pid, rest, us, sizes, cc);
    SizeFits(rest, us, n);
    var (rest', us') := Advance(rest, us, n);
    AdvanceDrops(rest, us, n);
    OnPacketsFirst(t, pid, Ts(pid, false, true, (cc + 1) % 16, false, Cut(rest, us, n)),
                   Packetise(pid, rest', us', sizes[1..], (cc + 1) % 16));
    var y := (rest + Concat(us))[..n][|rest|..];
    SkipFirst(rest, Concat(us), n);
    NoHarm(t, y, rest' + Concat(us'));
    OnCut(t, pid, rest, us, n, cc);
    SyncsUp(t, y);
    Onward(FoldT(t, y), pid, rest', us', sizes[1..], (cc + 1) % 16);
  }

  lemma SkipFirst(rest: seq<Byte>, x: seq<Byte>, n: nat)
    requires |rest| < n <= |rest| + |x|
    ensures (rest + x)[..n][|rest|..] != [] && (rest + x)[..n][|rest|..] + (rest + x)[n..] == x
  {
    assert (rest + x)[..n][|rest|..] == x[..n - |rest|] && (rest + x)[n..] == x[n - |rest|..];
  }

  lemma SyncsUp(t: Reframer, y: seq<Byte>)
    requires Between(t) && y != [] && !FoldT(t, y).bad && !FoldT(t, y).drop
    ensures FoldT(t, y).synced
  {
    hide FoldT;
    assert y == [y[0]] + y[1..];
    NoHarm(t, [y[0]], y[1..]);
    FoldHead(t, [y[0]]);
    StaysSynced(FoldT(t, [y[0]]), y[1..]);
  }
}
