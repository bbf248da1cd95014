/**
 * What the section reassembler guarantees: sections packetised as in section 2.4.4 of
 * ISO/IEC 13818-1 come out once each and in order, and on any packets at all whatever comes out is
 * an uninterrupted stretch of payload that starts at or after a section start.
 */
module SectionProofs {
  import opened Bytes
  import opened SectionDemux

  // ---------------------------------------------------------------------------------------------
  // The sender
  // ---------------------------------------------------------------------------------------------

  /**
   * How one packet is filled. `Continue` carries on with the section in progress and stuffs behind
   * its end. `Begin` ends the section in progress, then carries `whole` complete sections and, in
   * the space left, either the first part of one more or stuffing.
   */
  datatype Cut = Continue(size: nat) | Begin(size: nat, whole: nat, part: bool)

  function Stuff(n: nat): (b: seq<Byte>)
    ensures |b| == n && Stuffing(b)
  {
    if n == 0 then [] else [0xff] + Stuff(n - 1)
  }

  /** Space a `Begin` packet has for new sections, and what is left of it behind the whole ones. */
  function Room(size: nat, rest: seq<Byte>): int {
    size - 1 - |rest|
  }

  function Left(cut: Cut, rest: seq<Byte>, ss: seq<seq<Byte>>): int
    requires cut.Begin? && cut.whole <= |ss|
  {
    Room(cut.size, rest) - |Concat(ss[..cut.whole])|
  }

  predicate CutOk(cut: Cut, rest: seq<Byte>, ss: seq<seq<Byte>>) {
    1 <= cut.size <= 184 &&
    (cut.Begin? ==>
       && Room(cut.size, rest) >= 1 && cut.whole <= |ss| && Left(cut, rest, ss) >= 0
       && (if cut.part then cut.whole < |ss| && 0 < Left(cut, rest, ss) < |ss[cut.whole]| else cut.whole >= 1))
  }

  function RestAfter(cut: Cut, rest: seq<Byte>, ss: seq<seq<Byte>>): seq<Byte>
    requires CutOk(cut, rest, ss)
  {
    match cut
    case Continue(size) => rest[Min(size, |rest|)..]
    case Begin(size, whole, part) => if part then ss[whole][Left(cut, rest, ss)..] else []
  }

  function SectionsAfter(cut: Cut, rest: seq<Byte>, ss: seq<seq<Byte>>): seq<seq<Byte>>
    requires CutOk(cut, rest, ss)
  {
    match cut
    case Continue(size) => ss
    case Begin(size, whole, part) => if part then ss[whole + 1..] else ss[whole..]
  }

  /** The new sections of a `Begin` packet, up to the end of the packet. */
  function NewBytes(cut: Cut, rest: seq<Byte>, ss: seq<seq<Byte>>): seq<Byte>
    requires CutOk(cut, rest, ss) && cut.Begin?
  {
    Concat(ss[..cut.whole])
    + if cut.part then ss[cut.whole][..Left(cut, rest, ss)] else Stuff(Left(cut, rest, ss))
  }

  function Payload(cut: Cut, rest: seq<Byte>, ss: seq<seq<Byte>>): (b: seq<Byte>)
    requires CutOk(cut, rest, ss)
    ensures |b| == cut.size
  {
    match cut
    case Continue(size) => rest[..Min(size, |rest|)] + Stuff(size - Min(size, |rest|))
    case Begin(size, whole, part) => [|rest|] + rest + NewBytes(cut, rest, ss)
  }

  /** The cuts send all of `rest` and of `ss`. */
  predicate CutsOk(cuts: seq<Cut>, rest: seq<Byte>, ss: seq<seq<Byte>>)
    decreases |cuts|
  {
    if cuts == [] then rest == [] && ss == []
    else CutOk(cuts[0], rest, ss) &&
         CutsOk(cuts[1..], RestAfter(cuts[0], rest, ss), SectionsAfter(cuts[0], rest, ss))
  }

  /** `rest` of a section already begun, then `ss`, with counters that follow on `cc`. */
  function Packetise(cuts: seq<Cut>, cc: nat, rest: seq<Byte>, ss: seq<seq<Byte>>): seq<Pkt>
    requires CutsOk(cuts, rest, ss)
    decreases |cuts|
  {
    if cuts == [] then [] else
      [Pkt(cuts[0].Begin?, (cc + 1) % 16, false, Payload(cuts[0], rest, ss))]
      + Packetise(cuts[1..], (cc + 1) % 16, RestAfter(cuts[0], rest, ss), SectionsAfter(cuts[0], rest, ss))
  }

  /** The first packet of a packetisation, and the rest. */
  lemma PacketiseStep(cuts: seq<Cut>, cc: nat, rest: seq<Byte>, ss: seq<seq<Byte>>)
    requires CutsOk(cuts, rest, ss) && cuts != [] && AllSections(ss)
    ensures CutOk(cuts[0], rest, ss)
    ensures var cut := cuts[0];
            var rest', ss' := RestAfter(cut, rest, ss), SectionsAfter(cut, rest, ss);
            && CutsOk(cuts[1..], rest', ss') && AllSections(ss')
            && Packetise(cuts, cc, rest, ss)
               == [Pkt(cut.Begin?, (cc + 1) % 16, false, Payload(cut, rest, ss))]
                  + Packetise(cuts[1..], (cc + 1) % 16, rest', ss')
            && (cut.Begin? ==> ss == ss[..cut.whole] + (if rest' != [] then [Begun(cut, ss)] else []) + ss')
            && (cut.Continue? ==> ss' == ss)
  {
    hide Payload, RestAfter, SectionsAfter, Begun, CutOk;
    SectionsSplit(cuts[0], rest, ss);
  }

  /** Whole sections, the one begun, and those still to come. */
  lemma SectionsSplit(cut: Cut, rest: seq<Byte>, ss: seq<seq<Byte>>)
    requires CutOk(cut, rest, ss) && AllSections(ss)
    ensures var rest', ss' := RestAfter(cut, rest, ss), SectionsAfter(cut, rest, ss);
            && AllSections(ss')
            && (cut.Begin? ==> ss == ss[..cut.whole] + (if rest' != [] then [Begun(cut, ss)] else []) + ss')
            && (cut.Continue? ==> ss' == ss)
  {
    hide IsSection;
    if cut.Begin? {
      assert ss[..cut.whole] + ss[cut.whole..] == ss;
      assert cut.part ==> ss[cut.whole..] == [ss[cut.whole]] + ss[cut.whole + 1..];
    }
  }

  /** The section a `Begin` packet leaves unfinished. */
  function Begun(cut: Cut, ss: seq<seq<Byte>>): seq<Byte> {
    if cut.Begin? && cut.part && cut.whole < |ss| then ss[cut.whole] else []
  }

  lemma OnPktsStep(s: State, p: Pkt, ps: seq<Pkt>)
    requires StateOk(s)
    ensures StateOk(OnPkt(s, p).state)
    ensures OnPkts(s, [p] + ps).delivered == OnPkt(s, p).delivered + OnPkts(OnPkt(s, p).state, ps).delivered
  {
    hide OnPkt;
    OnPktOk(s, p);
    assert ([p] + ps)[1..] == ps;
  }

  // ---------------------------------------------------------------------------------------------
  // The receiver keeps step
  // ---------------------------------------------------------------------------------------------

  /** All but `rest` of section `cur` has been collected, or only stuffing since the last section. */
  ghost predicate Synced(s: State, cur: seq<Byte>, rest: seq<Byte>) {
    && StateOk(s) && s.pusiSeen
    && var tail := s.run[s.parsed..];
       if rest == [] then Stuffing(tail)
       else IsSection(cur) && cur == tail + rest && |s.run| + |rest| <= MAX_SECFEED_SIZE
  }

  lemma SectionThenStuffing(cur: seq<Byte>, stuff: seq<Byte>)
    requires IsSection(cur) && Stuffing(stuff)
    ensures Sections(cur + stuff) == [cur] && Used(cur + stuff) == |cur|
  {
    StuffingHasNoSection(stuff);
    SectionsOfConcat([cur], stuff);
    ConcatOne(cur);
  }

  /** Feeding the next `n` bytes of the section in progress, and stuffing only behind its end. */
  lemma FeedRest(s: State, cur: seq<Byte>, rest: seq<Byte>, n: nat, stuff: seq<Byte>)
    requires Synced(s, cur, rest) && n <= |rest| && Stuffing(stuff)
    requires n < |rest| ==> stuff == []
    ensures var step := Feed(s, rest[..n] + stuff);
            && Synced(step.state, cur, rest[n..]) && step.state.cc == s.cc
            && step.delivered == if rest != [] && n == |rest| then [cur] else []
  {
    hide Sections, Used, Feed, Synced;
    if n < |rest| {
      assert rest[..n] + [] == rest[..n];
      FeedMiddle(s, cur, rest, n);
    } else {
      assert rest[..n] == rest && rest[n..] == [];
      FeedEnd(s, cur, rest, stuff);
    }
    SyncedOk(s, cur, rest);
    FeedOk(s, rest[..n] + stuff);
  }

  lemma FeedMiddle(s: State, cur: seq<Byte>, rest: seq<Byte>, n: nat)
    requires Synced(s, cur, rest) && n < |rest|
    ensures var step := Feed(s, rest[..n]); Synced(step.state, cur, rest[n..]) && step.delivered == []
  {
    hide Sections, Used;
    var x := rest[..n];
    FeedOk(s, x);
    if x != [] && |s.run| < MAX_SECFEED_SIZE {
      var run := Appended(s.run, x);
      var tail := s.run[s.parsed..];
      assert run == s.run + x;
      assert run[s.parsed..] == tail + x == cur[..|tail| + n];
      ProperPrefix(cur, |tail| + n);
      SectionsStep(run[s.parsed..]);
      assert cur == run[s.parsed..] + rest[n..];
    }
  }

  lemma FeedEnd(s: State, cur: seq<Byte>, rest: seq<Byte>, stuff: seq<Byte>)
    requires Synced(s, cur, rest) && Stuffing(stuff)
    ensures var step := Feed(s, rest + stuff);
            Synced(step.state, cur, []) && step.delivered == if rest != [] then [cur] else []
  {
    hide Sections, Used;
    var x := rest + stuff;
    FeedOk(s, x);
    if x != [] && |s.run| < MAX_SECFEED_SIZE {
      var run := Appended(s.run, x);
      var tail := s.run[s.parsed..];
      var kept := stuff[..|run| - |s.run| - |rest|];
      assert run == s.run + rest + kept;
      if rest == [] {
        assert run[s.parsed..] == tail + kept;
        StuffingHasNoSection(run[s.parsed..]);
      } else {
        assert run[s.parsed..] == cur + kept;
        SectionThenStuffing(cur, kept);
        assert run[s.parsed + |cur|..] == kept;
      }
    }
  }

  /** A fresh run that starts with whole sections delivers them and keeps the one begun. */
  lemma FeedNew(s: State, cut: Cut, rest: seq<Byte>, ss: seq<seq<Byte>>)
    requires CutOk(cut, rest, ss) && cut.Begin? && AllSections(ss)
    requires s.run == [] && s.parsed == 0 && s.pusiSeen
    ensures var step := Feed(s, NewBytes(cut, rest, ss));
            && Synced(step.state, Begun(cut, ss), RestAfter(cut, rest, ss))
            && step.state.cc == s.cc && step.delivered == ss[..cut.whole]
  {
    hide Sections, Used;
    var x := NewBytes(cut, rest, ss);
    var left := Left(cut, rest, ss);
    var tail := if cut.part then ss[cut.whole][..left] else Stuff(left);
    if cut.part { ProperPrefix(ss[cut.whole], left); } else { StuffingHasNoSection(tail); SectionsStep(tail); }
    SectionsOfConcat(ss[..cut.whole], tail);
    assert Appended(s.run, x) == x && x[0..] == x;
    assert x[|Concat(ss[..cut.whole])|..] == tail;
  }

  lemma BeginPayload(cut: Cut, cc: nat, rest: seq<Byte>, ss: seq<seq<Byte>>)
    requires CutOk(cut, rest, ss) && cut.Begin?
    ensures var p := Pkt(true, cc, false, Payload(cut, rest, ss));
            PointerOk(p) && Before(p) == rest && After(p) == NewBytes(cut, rest, ss)
  {
  }

  /** One packet of the sender at a receiver in step. */
  lemma SyncedStep(s: State, cut: Cut, cur: seq<Byte>, rest: seq<Byte>, ss: seq<seq<Byte>>)
    requires CutOk(cut, rest, ss) && AllSections(ss) && Synced(s, cur, rest)
    ensures var step := OnPkt(s, Pkt(cut.Begin?, (s.cc + 1) % 16, false, Payload(cut, rest, ss)));
            var finished := rest != [] && (cut.Begin? || cut.size >= |rest|);
            && Synced(step.state, if cut.Continue? then cur else Begun(cut, ss), RestAfter(cut, rest, ss))
            && step.state.cc == (s.cc + 1) % 16
            && step.delivered == (if finished then [cur] else []) + (if cut.Begin? then ss[..cut.whole] else [])
  {
    hide Feed, Sections, Used;
    if cut.Continue? {
      SyncedContinue(s, cut, cur, rest, ss);
    } else {
      SyncedBegin(s, cut, cur, rest, ss);
    }
  }

  lemma SyncedContinue(s: State, cut: Cut, cur: seq<Byte>, rest: seq<Byte>, ss: seq<seq<Byte>>)
    requires CutOk(cut, rest, ss) && cut.Continue? && Synced(s, cur, rest)
    ensures var step := OnPkt(s, Pkt(false, (s.cc + 1) % 16, false, Payload(cut, rest, ss)));
            && Synced(step.state, cur, RestAfter(cut, rest, ss)) && step.state.cc == (s.cc + 1) % 16
            && step.delivered == if rest != [] && cut.size >= |rest| then [cur] else []
  {
    hide Feed, Sections, Used;
    var p := Pkt(false, (s.cc + 1) % 16, false, Payload(cut, rest, ss));
    var n := Min(cut.size, |rest|);
    assert Checked(s, p) == s.(cc := p.cc);
    FeedRest(s.(cc := p.cc), cur, rest, n, Stuff(cut.size - n));
  }

  lemma SyncedBegin(s: State, cut: Cut, cur: seq<Byte>, rest: seq<Byte>, ss: seq<seq<Byte>>)
    requires CutOk(cut, rest, ss) && cut.Begin? && AllSections(ss) && Synced(s, cur, rest)
    ensures var step := OnPkt(s, Pkt(true, (s.cc + 1) % 16, false, Payload(cut, rest, ss)));
            && Synced(step.state, Begun(cut, ss), RestAfter(cut, rest, ss)) && step.state.cc == (s.cc + 1) % 16
            && step.delivered == (if rest != [] then [cur] else []) + ss[..cut.whole]
  {
    hide Feed, Sections, Used;
    var p := Pkt(true, (s.cc + 1) % 16, false, Payload(cut, rest, ss));
    var t := s.(cc := p.cc);
    assert Checked(s, p) == t;
    BeginPayload(cut, p.cc, rest, ss);
    assert rest[..|rest|] + [] == rest;
    FeedRest(t, cur, rest, |rest|, []);
    FeedNew(Restarted(Feed(t, rest).state).(pusiSeen := true), cut, rest, ss);
  }

  lemma {:induction false} RoundTripInStep(s: State, cuts: seq<Cut>, cur: seq<Byte>, rest: seq<Byte>, ss: seq<seq<Byte>>)
    requires CutsOk(cuts, rest, ss) && AllSections(ss) && Synced(s, cur, rest)
    ensures OnPkts(s, Packetise(cuts, s.cc, rest, ss)).delivered == (if rest != [] then [cur] else []) + ss
    decreases |cuts|
  {
    hide OnPkt, OnPkts, Synced, CutOk, CutsOk, Packetise, Payload, RestAfter, SectionsAfter, Begun;
    SyncedOk(s, cur, rest);
    if cuts == [] {
      NoCuts(s, s.cc, rest, ss);
    } else {
      var cut := cuts[0];
      PacketiseStep(cuts, s.cc, rest, ss);
      SyncedStep(s, cut, cur, rest, ss);
      var p := Pkt(cut.Begin?, (s.cc + 1) % 16, false, Payload(cut, rest, ss));
      var s', rest', ss' := OnPkt(s, p).state, RestAfter(cut, rest, ss), SectionsAfter(cut, rest, ss);
      RoundTripInStep(s', cuts[1..], if cut.Continue? then cur else Begun(cut, ss), rest', ss');
      OnPktsStep(s, p, Packetise(cuts[1..], s'.cc, rest', ss'));
      ContinueRest(cut, rest, ss);
    }
  }

  lemma NoCuts(s: State, cc: nat, rest: seq<Byte>, ss: seq<seq<Byte>>)
    requires CutsOk([], rest, ss) && StateOk(s)
    ensures rest == [] && ss == [] && OnPkts(s, Packetise([], cc, rest, ss)).delivered == []
  {
  }

  lemma ContinueRest(cut: Cut, rest: seq<Byte>, ss: seq<seq<Byte>>)
    requires CutOk(cut, rest, ss)
    ensures cut.Continue? ==> (RestAfter(cut, rest, ss) == [] <==> cut.size >= |rest|)
  {
  }

  lemma SyncedOk(s: State, cur: seq<Byte>, rest: seq<Byte>)
    requires Synced(s, cur, rest)
    ensures StateOk(s)
  {
  }

  /** Until it has seen a section start, the receiver delivers nothing. */
  lemma UnsyncedStep(s: State, cut: Cut, cc: nat, rest: seq<Byte>, ss: seq<seq<Byte>>)
    requires CutOk(cut, rest, ss) && AllSections(ss) && StateOk(s) && !s.pusiSeen
    ensures var step := OnPkt(s, Pkt(cut.Begin?, (cc + 1) % 16, false, Payload(cut, rest, ss)));
            && step.state.cc == (cc + 1) % 16
            && (cut.Continue? ==> StateOk(step.state) && !step.state.pusiSeen && step.delivered == [])
            && (cut.Begin? ==> Synced(step.state, Begun(cut, ss), RestAfter(cut, rest, ss))
                               && step.delivered == ss[..cut.whole])
  {
    var p := Pkt(cut.Begin?, (cc + 1) % 16, false, Payload(cut, rest, ss));
    var t := Checked(s, p);
    FeedOk(t, p.payload);
    if cut.Begin? {
      BeginPayload(cut, p.cc, rest, ss);
      FeedOk(t, rest);
      FeedNew(Restarted(Feed(t, rest).state).(pusiSeen := true), cut, rest, ss);
    }
  }

  /**
   * Round trip. A receiver that joins anywhere, in a state that has seen no section start since the
   * last discontinuity, delivers exactly the sections that begin from there on, each once, in
   * order; `rest` of a section it joined in the middle of is dropped.
   */
  lemma {:induction false} RoundTrip(s: State, cuts: seq<Cut>, cc: nat, rest: seq<Byte>, ss: seq<seq<Byte>>)
    requires CutsOk(cuts, rest, ss) && AllSections(ss) && StateOk(s) && !s.pusiSeen
    ensures OnPkts(s, Packetise(cuts, cc, rest, ss)).delivered == ss
    decreases |cuts|
  {
    hide OnPkt, OnPkts, Synced, CutOk, CutsOk, Packetise, Payload, RestAfter, SectionsAfter, Begun;
    if cuts == [] {
      NoCuts(s, cc, rest, ss);
    } else {
      var cut := cuts[0];
      PacketiseStep(cuts, cc, rest, ss);
      UnsyncedStep(s, cut, cc, rest, ss);
      var p := Pkt(cut.Begin?, (cc + 1) % 16, false, Payload(cut, rest, ss));
      var s', rest', ss' := OnPkt(s, p).state, RestAfter(cut, rest, ss), SectionsAfter(cut, rest, ss);
      if cut.Continue? {
        RoundTrip(s', cuts[1..], s'.cc, rest', ss');
      } else {
        RoundTripInStep(s', cuts[1..], Begun(cut, ss), rest', ss');
      }
      OnPktsStep(s, p, Packetise(cuts[1..], s'.cc, rest', ss'));
    }
  }

  // ---------------------------------------------------------------------------------------------
  // On raw packets
  // ---------------------------------------------------------------------------------------------

  /** A transport packet with the given payload, shorter ones behind an adaptation field. */
  function MakePacket(p: Pkt, pid: nat): (buf: seq<Byte>)
    requires 1 <= |p.payload| <= 184 && p.cc < 16 && pid < 0x2000
    ensures |buf| == TS_SIZE
  {
    var header: seq<Byte> := [0x47, (if p.pusi then 0x40 else 0) + pid / 256, pid % 256];
    var gap := 183 - |p.payload|;
    if gap < 0 then header + [0x10 + p.cc] + p.payload
    else if gap == 0 then header + [0x30 + p.cc, 0] + p.payload
    else header + [0x30 + p.cc, gap, 0] + Stuff(gap - 1) + p.payload
  }

  lemma ParseMakePacket(p: Pkt, pid: nat)
    requires 1 <= |p.payload| <= 184 && p.cc < 16 && pid < 0x2000 && !p.discontinuity
    ensures ParsePkt(MakePacket(p, pid)) == p
  {
    var buf := MakePacket(p, pid);
    assert PayloadLength(buf) == |p.payload|;
    assert buf[TS_SIZE - |p.payload|..] == p.payload;
  }

  function MakePackets(ps: seq<Pkt>, pid: nat): (bufs: seq<seq<Byte>>)
    requires pid < 0x2000 && forall i :: 0 <= i < |ps| ==> 1 <= |ps[i].payload| <= 184 && ps[i].cc < 16
    ensures |bufs| == |ps| && forall i :: 0 <= i < |bufs| ==> |bufs[i]| == TS_SIZE && bufs[i] == MakePacket(ps[i], pid)
  {
    if ps == [] then [] else [MakePacket(ps[0], pid)] + MakePackets(ps[1..], pid)
  }

  lemma {:induction false} PacketisedPkts(cuts: seq<Cut>, cc: nat, rest: seq<Byte>, ss: seq<seq<Byte>>)
    requires CutsOk(cuts, rest, ss) && AllSections(ss)
    ensures forall p :: p in Packetise(cuts, cc, rest, ss) ==> 1 <= |p.payload| <= 184 && p.cc < 16 && !p.discontinuity
    decreases |cuts|
  {
    if cuts != [] {
      hide RestAfter, SectionsAfter, Begun;
      PacketiseStep(cuts, cc, rest, ss);
      PacketisedPkts(cuts[1..], (cc + 1) % 16, RestAfter(cuts[0], rest, ss), SectionsAfter(cuts[0], rest, ss));
    }
  }

  /**
   * The round trip on the object itself: a feed just started is given the raw packets of any
   * packetisation, joined at any point, and hands over exactly the sections that begin in it.
   */
  method PlayBack(cuts: seq<Cut>, cc: nat, rest: seq<Byte>, ss: seq<seq<Byte>>, pid: nat) returns (feed: SectionFeed)
    requires CutsOk(cuts, rest, ss) && AllSections(ss) && pid < 0x2000
    ensures feed.delivered == ss
  {
    hide Packetise, CutsOk, OnPkt, OnPkts, ParsePkt, MakePacket, AllSections;
    PacketisedPkts(cuts, cc, rest, ss);
    var ps := Packetise(cuts, cc, rest, ss);
    var bufs := MakePackets(ps, pid);
    feed := new SectionFeed();
    RoundTrip(feed.View(), cuts, cc, rest, ss);
    AllParsed(ps, pid);
    assert ps[0..] == ps;
    hide MakePackets;
    for i := 0 to |bufs|
      invariant feed.Valid() && fresh(feed) && fresh(feed.secbufBase)
      invariant feed.delivered + OnPkts(feed.View(), ps[i..]).delivered == ss
    {
      FirstLeft(feed.View(), ps, i);
      Associative(feed.delivered, OnPkt(feed.View(), ps[i]).delivered,
                  OnPkts(OnPkt(feed.View(), ps[i]).state, ps[i + 1..]).delivered);
      feed.PacketType(bufs[i]);
    }
    NoMore(feed.View(), ps[|bufs|..]);
    assert feed.delivered + [] == feed.delivered;
  }

  lemma AllParsed(ps: seq<Pkt>, pid: nat)
    requires pid < 0x2000 && forall i :: 0 <= i < |ps| ==> 1 <= |ps[i].payload| <= 184 && ps[i].cc < 16 && !ps[i].discontinuity
    ensures |MakePackets(ps, pid)| == |ps|
    ensures forall i :: 0 <= i < |ps| ==> |MakePackets(ps, pid)[i]| == TS_SIZE && ParsePkt(MakePackets(ps, pid)[i]) == ps[i]
  {
    hide ParsePkt, MakePacket;
    forall i | 0 <= i < |ps| ensures |MakePackets(ps, pid)[i]| == TS_SIZE && ParsePkt(MakePackets(ps, pid)[i]) == ps[i] {
      ParseMakePacket(ps[i], pid);
    }
  }

  lemma FirstLeft(s: State, ps: seq<Pkt>, i: nat)
    requires StateOk(s) && i < |ps|
    ensures StateOk(OnPkt(s, ps[i]).state)
    ensures OnPkts(s, ps[i..]).delivered
            == OnPkt(s, ps[i]).delivered + OnPkts(OnPkt(s, ps[i]).state, ps[i + 1..]).delivered
  {
    hide OnPkt, OnPkts;
    OnPktsStep(s, ps[i], ps[i + 1..]);
    assert ps[i..] == [ps[i]] + ps[i + 1..];
  }

  lemma NoMore(s: State, ps: seq<Pkt>)
    requires StateOk(s) && ps == []
    ensures OnPkts(s, ps).delivered == []
  {
  }

  // ---------------------------------------------------------------------------------------------
  // Safety on arbitrary packets
  // ---------------------------------------------------------------------------------------------

  predicate SliceAt(d: seq<Byte>, b: seq<Byte>, k: nat) {
    k + |d| <= |b| && b[k..k + |d|] == d
  }

  ghost predicate SliceOf(d: seq<Byte>, b: seq<Byte>) {
    exists k: nat :: SliceAt(d, b, k)
  }

  lemma SliceWithin(d: seq<Byte>, b: seq<Byte>, from: nat, to: nat)
    requires from <= to <= |b| && SliceOf(d, b[from..to])
    ensures SliceOf(d, b)
  {
    var k: nat :| SliceAt(d, b[from..to], k);
    var c := b[from..to];
    forall m | 0 <= m < |d| ensures b[from + k..from + k + |d|][m] == d[m] {
      assert c[k..k + |d|][m] == c[k + m] == b[from + k + m];
    }
    assert SliceAt(d, b, from + k);
  }

  lemma {:induction false} SectionsAreSlices(b: seq<Byte>)
    ensures forall d :: d in Sections(b) ==> IsSection(d) && SliceOf(d, b)
  {
    SectionsStep(b);
    if StartsWithSection(b) {
      var n := SectionLength(b);
      SectionsAreSlices(b[n..]);
      assert SliceAt(b[..n], b, 0);
      assert b[n..|b|] == b[n..];
      forall d | d in Sections(b[n..]) ensures SliceOf(d, b) {
        SliceWithin(d, b, n, |b|);
      }
    }
  }

  /** A start of a section is where the pointer field says, or the packet throws the run away anyway. */
  predicate Harmless(p: Pkt) {
    p.pusi && p.payload != [] ==> PointerOk(p) || p.discontinuity
  }

  /** No packet silently points past its payload. */
  predicate NoOverrun(ps: seq<Pkt>) {
    forall i :: 0 <= i < |ps| ==> Harmless(ps[i])
  }

  predicate StartsRun(p: Pkt) {
    p.pusi && PointerOk(p)
  }

  /** What a later packet adds to a run. */
  function Piece(p: Pkt): seq<Byte> {
    if !p.pusi then p.payload else if PointerOk(p) then Before(p) else []
  }

  /**
   * A raw packet in the middle of a section: it goes on with the run exactly when its counter is the
   * next one and its adaptation field announces no discontinuity. Otherwise nothing is delivered until
   * another start has come.
   */
  lemma MiddlePacket(s: State, buf: seq<Byte>)
    requires StateOk(s) && |buf| == 188 && buf[1] / 0x40 % 2 == 0
    requires buf[3] / 0x10 % 2 == 1 && (buf[3] / 0x20 % 2 == 1 ==> buf[4] < 183)
    ensures var adapted := buf[3] / 0x20 % 2 == 1;
            var payload := if adapted then buf[5 + buf[4]..] else buf[4..];
            var flagged := adapted && buf[4] > 0 && buf[5] / 0x80 == 1;
            var step := OnPkt(s, ParsePkt(buf));
            if buf[3] % 16 == (s.cc + 1) % 16 && !flagged then step == Feed(s.(cc := buf[3] % 16), payload)
            else
              && step.delivered == [] && !step.state.pusiSeen && step.state.run == payload
              && step.state.cc == buf[3] % 16
  {
    hide Used, Sections;
    var payload := ParsePkt(buf).payload;
    assert [] + payload == payload && payload[..|payload|] == payload;
  }

  /** A raw packet without payload, or with an adaptation field that leaves none, only rewinds the search. */
  lemma EmptyPacket(s: State, buf: seq<Byte>)
    requires StateOk(s) && |buf| == 188
    requires buf[3] / 0x10 % 2 == 0 || (buf[3] / 0x20 % 2 == 1 && buf[4] >= 183)
    ensures OnPkt(s, ParsePkt(buf)) == Step(s.(parsed := 0), [])
  {
  }

  /** Payload from the pointer target in packet `i` up to packet `j`, exclusive. */
  function RunBytes(ps: seq<Pkt>, i: nat, j: nat): seq<Byte>
    requires i < j <= |ps|
  {
    if j == i + 1 then (if PointerOk(ps[i]) then After(ps[i]) else []) else RunBytes(ps, i, j - 1) + Piece(ps[j - 1])
  }

  /** Counter of the last packet with payload among the first `m`. */
  function LastCc(ps: seq<Pkt>, m: nat): nat
    requires m <= |ps|
  {
    if m == 0 then 0 else if ps[m - 1].payload != [] then ps[m - 1].cc else LastCc(ps, m - 1)
  }

  /** Packet `m` carries nothing, or follows the packets before it without a gap. */
  predicate Follows(ps: seq<Pkt>, m: nat)
    requires m < |ps|
  {
    ps[m].payload != [] ==> ps[m].cc == (LastCc(ps, m) + 1) % 16 && !ps[m].discontinuity
  }

  predicate BeginsNothing(p: Pkt) {
    p.payload == [] || !p.pusi
  }

  /** Packets `i` to `j` follow each other without a gap, and no other run begins before `j - 1`. */
  predicate Unbroken(ps: seq<Pkt>, i: nat, j: nat) {
    i < j <= |ps| && StartsRun(ps[i]) &&
    (forall m :: i < m < j ==> Follows(ps, m)) &&
    (forall m :: i < m < j - 1 ==> BeginsNothing(ps[m]))
  }

  /** `d` is an uninterrupted stretch of payload behind some section start of `ps`. */
  ghost predicate Received(d: seq<Byte>, ps: seq<Pkt>) {
    exists i, j :: 0 <= i < j <= |ps| && Unbroken(ps, i, j) && SliceOf(d, RunBytes(ps, i, j))
  }

  /** What is collected after `hist` is the run that began in packet `i`, and no new one since. */
  ghost predicate Tracks(s: State, hist: seq<Pkt>, i: nat) {
    && StateOk(s)
    && (s.pusiSeen ==>
          && s.cc == LastCc(hist, |hist|) && i < |hist| && Unbroken(hist, i, |hist|)
          && (forall m :: i < m < |hist| ==> BeginsNothing(hist[m]))
          && s.run == RunBytes(hist, i, |hist|)[..Min(MAX_SECFEED_SIZE, |RunBytes(hist, i, |hist|)|)])
  }

  lemma {:induction false} RunBytesPrefix(a: seq<Pkt>, b: seq<Pkt>, i: nat, j: nat)
    requires i < j <= |a|
    ensures RunBytes(a + b, i, j) == RunBytes(a, i, j)
    decreases j
  {
    if j > i + 1 { RunBytesPrefix(a, b, i, j - 1); }
  }

  lemma {:induction false} LastCcPrefix(a: seq<Pkt>, b: seq<Pkt>, m: nat)
    requires m <= |a|
    ensures LastCc(a + b, m) == LastCc(a, m)
  {
    if m > 0 { LastCcPrefix(a, b, m - 1); }
  }

  lemma FollowsPrefix(a: seq<Pkt>, b: seq<Pkt>, m: nat)
    requires m < |a|
    ensures Follows(a + b, m) == Follows(a, m)
  {
    LastCcPrefix(a, b, m);
  }

  lemma UnbrokenPrefix(a: seq<Pkt>, b: seq<Pkt>, i: nat, j: nat)
    requires Unbroken(a, i, j)
    ensures Unbroken(a + b, i, j)
  {
    hide Follows;
    forall m | i < m < j ensures Follows(a + b, m) {
      FollowsPrefix(a, b, m);
    }
  }

  /** More packets take nothing away from what has been received. */
  lemma ReceivedPrefix(d: seq<Byte>, a: seq<Pkt>, b: seq<Pkt>)
    requires Received(d, a)
    ensures Received(d, a + b)
  {
    var i, j :| 0 <= i < j <= |a| && Unbroken(a, i, j) && SliceOf(d, RunBytes(a, i, j));
    RunBytesPrefix(a, b, i, j);
    UnbrokenPrefix(a, b, i, j);
  }

  /** One more packet that continues the run. */
  lemma ExtendRun(hist: seq<Pkt>, p: Pkt, i: nat)
    requires Unbroken(hist, i, |hist|)
    requires forall m :: i < m < |hist| ==> BeginsNothing(hist[m])
    requires p.payload != [] ==> p.cc == (LastCc(hist, |hist|) + 1) % 16 && !p.discontinuity
    ensures Unbroken(hist + [p], i, |hist| + 1)
    ensures RunBytes(hist + [p], i, |hist| + 1) == RunBytes(hist, i, |hist|) + Piece(p)
    ensures LastCc(hist + [p], |hist| + 1) == if p.payload == [] then LastCc(hist, |hist|) else p.cc
  {
    var all := hist + [p];
    RunBytesPrefix(hist, [p], i, |hist|);
    LastCcPrefix(hist, [p], |hist|);
    assert Follows(all, |hist|);
    UnbrokenPrefix(hist, [p], i, |hist|);
  }

  /** What a feed delivers lies in the run it extends. */
  lemma FeedSlices(s: State, x: seq<Byte>, whole: seq<Byte>)
    requires StateOk(s) && s.run == whole[..Min(MAX_SECFEED_SIZE, |whole|)]
    ensures var step := Feed(s, x);
            && step.state.run == (whole + x)[..Min(MAX_SECFEED_SIZE, |whole + x|)]
            && forall d :: d in step.delivered ==> IsSection(d) && SliceOf(d, whole + x)
  {
    hide Sections, Used, SliceOf, IsSection;
    var run := Appended(s.run, x);
    assert run == (whole + x)[..Min(MAX_SECFEED_SIZE, |whole + x|)];
    if x != [] && |s.run| < MAX_SECFEED_SIZE {
      var rest := run[s.parsed..];
      SectionsAreSlices(rest);
      assert (whole + x)[s.parsed..|run|] == rest;
      forall d | d in Sections(rest) ensures SliceOf(d, whole + x) {
        SliceWithin(d, whole + x, s.parsed, |run|);
      }
    }
  }

  /** The old run: the payload of a packet that continues it, or what precedes its pointer target. */
  lemma OldRun(s: State, hist: seq<Pkt>, i: nat, p: Pkt)
    requires Tracks(s, hist, i) && p.payload != [] && (p.pusi ==> PointerOk(p))
    ensures var t, all := Checked(s, p), hist + [p];
            var step := Feed(t, Piece(p));
            && (forall d :: d in step.delivered ==> IsSection(d) && Received(d, all))
            && (!p.pusi ==> Tracks(step.state, all, i))
  {
    hide Sections, Used, SliceOf, IsSection, Feed, Unbroken, RunBytes, LastCc;
    var t, all := Checked(s, p), hist + [p];
    FeedOk(t, Piece(p));
    if t.pusiSeen {
      ExtendRun(hist, p, i);
      FeedSlices(t, Piece(p), RunBytes(hist, i, |hist|));
    } else {
      UnseenDeliversNothing(t, Piece(p));
    }
  }

  lemma UnseenDeliversNothing(s: State, x: seq<Byte>)
    requires StateOk(s) && !s.pusiSeen
    ensures Feed(s, x).delivered == []
  {
  }

  lemma SafeStep(s: State, hist: seq<Pkt>, i: nat, p: Pkt) returns (i': nat)
    requires NoOverrun([p]) && Tracks(s, hist, i)
    ensures var step, all := OnPkt(s, p), hist + [p];
            && Tracks(step.state, all, i')
            && forall d :: d in step.delivered ==> IsSection(d) && Received(d, all)
  {
    hide Sections, Used, SliceOf, IsSection, Feed, Unbroken, RunBytes, LastCc;
    var all := hist + [p];
    assert Harmless([p][0]);
    i' := i;
    if p.payload == [] {
      if s.pusiSeen {
          ExtendRun(hist, p, i);
      }
    } else if p.pusi && !PointerOk(p) {
      assert !Checked(s, p).pusiSeen;
    } else {
      assert all[|hist|] == p;
      OldRun(s, hist, i, p);
      if p.pusi {
        i' := |hist|;
        FeedOk(Checked(s, p), Before(p));
        NewRun(Feed(Checked(s, p), Before(p)).state, hist, p);
      }
    }
  }

  /** The new run: what follows the pointer target. */
  lemma NewRun(s: State, hist: seq<Pkt>, p: Pkt)
    requires p.pusi && p.payload != [] && PointerOk(p) && s.cc == p.cc
    ensures var t, all := Restarted(s).(pusiSeen := true), hist + [p];
            && Tracks(Feed(t, After(p)).state, all, |hist|)
            && forall d :: d in Feed(t, After(p)).delivered ==> IsSection(d) && Received(d, all)
  {
    hide Sections, Used, SliceOf, IsSection, Feed;
    var t, all := Restarted(s).(pusiSeen := true), hist + [p];
    FeedOk(t, After(p));
    assert [] + After(p) == After(p);
    FeedSlices(t, After(p), []);
    assert Unbroken(all, |hist|, |all|) && RunBytes(all, |hist|, |all|) == After(p);
  }

  /**
   * Whatever the packets, every section delivered has the length it claims, and is an uninterrupted
   * stretch of payload behind a section start, with consecutive counters in between.
   */
  lemma {:induction false} SectionSafety(s: State, hist: seq<Pkt>, i: nat, ps: seq<Pkt>)
    requires NoOverrun(ps) && Tracks(s, hist, i)
    ensures forall d :: d in OnPkts(s, ps).delivered ==> IsSection(d) && Received(d, hist + ps)
    decreases |ps|
  {
    hide OnPkt, Received, IsSection;
    if ps != [] {
      var p, rest := ps[0], ps[1..];
      assert hist + ps == (hist + [p]) + rest;
      var i' := SafeStep(s, hist, i, p);
      OnPktOk(s, p);
      SectionSafety(OnPkt(s, p).state, hist + [p], i', rest);
      forall d | d in OnPkt(s, p).delivered ensures Received(d, hist + ps) {
        ReceivedPrefix(d, hist + [p], rest);
      }
    }
  }

  /** A receiver that has seen no section start satisfies the hypothesis of `SectionSafety`. */
  lemma SafetyFromStart(s: State, ps: seq<Pkt>)
    requires StateOk(s) && !s.pusiSeen && NoOverrun(ps)
    ensures forall d :: d in OnPkts(s, ps).delivered ==> IsSection(d) && Received(d, ps)
  {
    assert [] + ps == ps;
    SectionSafety(s, [], 0, ps);
  }

  // ---------------------------------------------------------------------------------------------
  // Where exactly-once and safety end
  // ---------------------------------------------------------------------------------------------

  /** A packet without payload rewinds the search but keeps the bytes. */
  function Rewound(s: State): State {
    s.(parsed := 0)
  }

  /** Bytes that are added then have the whole run searched again. */
  lemma RunSearchedAgain(s: State, x: seq<Byte>)
    requires StateOk(s) && s.pusiSeen && s.parsed == Used(s.run) && x != [] && |s.run| < MAX_SECFEED_SIZE
    ensures StateOk(Rewound(s)) && Feed(Rewound(s), x).delivered == Sections(s.run) + Feed(s, x).delivered
  {
    hide Sections, Used;
    var y := x[..Min(MAX_SECFEED_SIZE - |s.run|, |x|)];
    var run := s.run + y;
    SectionsExtend(s.run, y);
    assert Appended(s.run, x) == run && run[0..] == run;
    assert run[s.parsed..] == s.run[s.parsed..] + y;
  }

  /**
   * So the next packet brings sections for a second time, unless the run holds none, the packet
   * throws it away or adds nothing to it, or the buffer is full; and it makes no difference exactly then.
   */
  lemma RewindRedelivers(s: State, q: Pkt)
    requires StateOk(s) && s.pusiSeen && s.parsed == Used(s.run)
    requires q.payload != [] && (q.pusi ==> PointerOk(q))
    ensures StateOk(Rewound(s)) && OnPkt(s, Pkt(false, 0, false, [])) == Step(Rewound(s), [])
    ensures var twice := if Continuous(s, q) && Piece(q) != [] && |s.run| < MAX_SECFEED_SIZE then Sections(s.run) else [];
            OnPkt(Rewound(s), q).delivered == twice + OnPkt(s, q).delivered
    ensures OnPkt(Rewound(s), q).delivered == OnPkt(s, q).delivered
            <==> Sections(s.run) == [] || !Continuous(s, q) || Piece(q) == [] || |s.run| == MAX_SECFEED_SIZE
  {
    hide Sections, Used, Feed;
    var t, x := Rewound(s), Piece(q);
    var u, v := Checked(s, q), Checked(t, q);
    FeedOk(u, x);
    FeedOk(v, x);
    if Continuous(s, q) && x != [] && |s.run| < MAX_SECFEED_SIZE {
      RunSearchedAgain(u, x);
      assert Rewound(u) == v;
      if q.pusi {
        var more := Feed(Restarted(Feed(u, x).state).(pusiSeen := true), After(q));
        assert Restarted(Feed(u, x).state) == Restarted(Feed(v, x).state);
        Associative(Sections(s.run), Feed(u, x).delivered, more.delivered);
      }
    } else {
      if Continuous(s, q) {
        FeedNothing(u, x);
        FeedNothing(v, x);
        assert Restarted(u) == Restarted(v);
      } else {
        assert u == v;
      }
      assert [] + OnPkt(s, q).delivered == OnPkt(s, q).delivered;
    }
  }

  lemma FeedNothing(s: State, x: seq<Byte>)
    requires StateOk(s) && (x == [] || |s.run| == MAX_SECFEED_SIZE)
    ensures Feed(s, x) == Step(s, [])
  {
  }

  /**
   * One packet with a start of a section, and one that goes on behind it: what is collected is still
   * payload without a gap exactly when the pointer field stays inside the first of them. Otherwise
   * its payload is dropped but not its counter, and nobody notices the hole.
   */
  lemma TrackedExactlyWhen(s: State, hist: seq<Pkt>, i: nat, p: Pkt, q: Pkt)
    requires Tracks(s, hist, i) && s.pusiSeen && Continuous(s, p) && p.pusi && p.payload != []
    requires !q.pusi && q.payload != [] && !q.discontinuity && q.cc == (p.cc + 1) % 16
    ensures (exists i': nat :: Tracks(OnPkts(s, [p, q]).state, hist + [p, q], i')) <==> PointerOk(p)
  {
    hide Sections, Used, Feed, RunBytes, LastCc, SliceOf, IsSection;
    OnPktOk(s, p);
    var t := OnPkt(s, p).state;
    TwoPkts(s, p, q);
    assert (hist + [p]) + [q] == hist + [p, q];
    if PointerOk(p) {
      var i1 := SafeStep(s, hist, i, p);
      var i2 := SafeStep(t, hist + [p], i1, q);
    } else {
      FeedOk(Checked(t, q), q.payload);
      var all := hist + [p, q];
      assert all[|hist|] == p && all[|hist| + 1] == q && !BeginsNothing(p);
      assert OnPkt(t, q).state.pusiSeen;
      forall i': nat ensures !Tracks(OnPkt(t, q).state, all, i') {
        if i' < |hist| { assert !BeginsNothing(all[|hist|]); }
      }
    }
  }

  lemma TwoPkts(s: State, p: Pkt, q: Pkt)
    requires StateOk(s)
    ensures StateOk(OnPkt(s, p).state)
    ensures OnPkts(s, [p, q]).state == OnPkt(OnPkt(s, p).state, q).state
    ensures OnPkts(s, [p, q]).delivered == OnPkt(s, p).delivered + OnPkt(OnPkt(s, p).state, q).delivered
  {
    hide OnPkt;
    OnPktOk(s, p);
    OnPktOk(OnPkt(s, p).state, q);
    assert [p, q][1..] == [q] && [q][1..] == [];
    assert OnPkts(OnPkt(s, p).state, [q]).delivered == OnPkt(OnPkt(s, p).state, q).delivered + [];
  }

  /** A receiver that has just been started. */
  function Fresh(): State {
    State([], 0, 0, false)
  }

  /** Everything delivered has been received without a gap. */
  ghost predicate Safe(ps: seq<Pkt>) {
    forall d :: d in OnPkts(Fresh(), ps).delivered ==> Received(d, ps)
  }

  /** Six bytes of which a receiver gets the first four and the last two. */
  function Begins(cc: nat): Pkt {
    Pkt(true, (cc + 15) % 16, false, [0, 0, 0, 3, 7])
  }

  function GoesOn(cc: nat): Pkt {
    Pkt(false, (cc + 1) % 16, false, [8, 9])
  }

  lemma HoleDelivered(p: Pkt)
    requires p.cc < 16 && !Harmless(p)
    ensures OnPkts(Fresh(), [Begins(p.cc), p, GoesOn(p.cc)]).delivered == [[0, 0, 3, 7, 8, 9]]
  {
    hide OnPkt;
    var a, q := Begins(p.cc), GoesOn(p.cc);
    var s1, s2 := State([0, 0, 3, 7], 0, a.cc, true), State([0, 0, 3, 7], 0, p.cc, true);
    HoleBegins(p.cc);
    HoleUnnoticed(p);
    HoleCloses(p.cc);
    TwoPkts(s1, p, q);
    OnPktsStep(Fresh(), a, [p, q]);
    assert [a] + [p, q] == [a, p, q];
  }

  lemma HoleBegins(cc: nat)
    ensures OnPkt(Fresh(), Begins(cc)) == Step(State([0, 0, 3, 7], 0, (cc + 15) % 16, true), [])
  {
    hide Sections, Used;
    var p := Begins(cc);
    var b: seq<Byte> := [0, 0, 3, 7];
    assert Before(p) == [] && After(p) == b;
    SectionsStep(b);
    assert [] + b == b && b[0..] == b && b[..4] == b;
  }

  lemma HoleUnnoticed(p: Pkt)
    requires p.cc < 16 && !Harmless(p)
    ensures var s := State([0, 0, 3, 7], 0, (p.cc + 15) % 16, true);
            OnPkt(s, p) == Step(s.(cc := p.cc), [])
  {
  }

  lemma HoleCloses(cc: nat)
    requires cc < 16
    ensures OnPkt(State([0, 0, 3, 7], 0, cc, true), GoesOn(cc)).delivered == [[0, 0, 3, 7, 8, 9]]
  {
    hide Sections, Used, Feed;
    var run: seq<Byte> := [0, 0, 3, 7];
    var q := GoesOn(cc);
    var s := State(run, 0, q.cc, true);
    assert Checked(State(run, 0, cc, true), q) == s;
    assert run + q.payload == [0, 0, 3, 7, 8, 9];
    WholeSection(s, q.payload);
  }

  /** The bytes that complete the only section of a run. */
  lemma WholeSection(s: State, x: seq<Byte>)
    requires StateOk(s) && s.parsed == 0 && s.pusiSeen && x != [] && IsSection(s.run + x) && |s.run| >= 3
    ensures Feed(s, x).delivered == [s.run + x]
  {
    hide Sections, Used;
    var b := s.run + x;
    assert StartsWithSection(b) && Appended(s.run, x) == b;
    SectionsStep(b);
    SectionsStep([]);
    assert b[0..] == b && b[..|b|] == b && b[|b|..] == [];
  }

  lemma HoleNotReceived(p: Pkt)
    requires p.cc < 16 && !Harmless(p)
    ensures !Received([0, 0, 3, 7, 8, 9], [Begins(p.cc), p, GoesOn(p.cc)])
  {
    var ps := [Begins(p.cc), p, GoesOn(p.cc)];
    forall i, j | 0 <= i < j <= 3 && Unbroken(ps, i, j) ensures |RunBytes(ps, i, j)| <= 4 {
      assert !BeginsNothing(ps[1]) && !StartsRun(ps[1]) && !StartsRun(ps[2]);
      assert i == 0 && j <= 2;
      assert RunBytes(ps, 0, 1) == After(ps[0]);
    }
  }

  /**
   * Which packets can do harm: streams in which nothing but copies of `p` may point past the payload
   * are all received without a gap exactly when `p` does not, or announces a discontinuity.
   */
  lemma SafeExactlyWhen(p: Pkt)
    requires p.cc < 16
    ensures (forall ps :: (forall i :: 0 <= i < |ps| ==> Harmless(ps[i]) || ps[i] == p) ==> Safe(ps)) <==> Harmless(p)
  {
    hide OnPkts, Received, Harmless;
    if Harmless(p) {
      forall ps: seq<Pkt> | forall i :: 0 <= i < |ps| ==> Harmless(ps[i]) || ps[i] == p ensures Safe(ps) {
        SafetyFromStart(Fresh(), ps);
      }
    } else {
      HoleDelivered(p);
      HoleNotReceived(p);
      HarmlessEnds(p.cc);
      assert !Safe([Begins(p.cc), p, GoesOn(p.cc)]);
    }
  }

  lemma HarmlessEnds(cc: nat)
    ensures Harmless(Begins(cc)) && Harmless(GoesOn(cc))
  {
  }
}
