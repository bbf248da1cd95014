/**
 * The PSI section reassembler of neumo-dvb-demux.c: payloads of one PID are collected in a buffer
 * from each start of a section on, and every complete section found there is delivered.
 */
module SectionDemux {
  import opened Bytes

  const MAX_SECTION_SIZE := 4096
  const MAX_SECFEED_SIZE := 4096 + 188
  const TS_SIZE := 188

  // ---------------------------------------------------------------------------------------------
  // Sections in a run of bytes
  // ---------------------------------------------------------------------------------------------

  function SectionLength(b: seq<Byte>): nat
    requires |b| >= 3
  {
    3 + Be16(b[1] % 16, b[2])
  }

  predicate StartsWithSection(b: seq<Byte>) {
    |b| >= 3 && SectionLength(b) <= MAX_SECTION_SIZE && SectionLength(b) <= |b|
  }

  /** The complete sections at the front of `b`. */
  function Sections(b: seq<Byte>): seq<seq<Byte>> {
    if StartsWithSection(b) then [b[..SectionLength(b)]] + Sections(b[SectionLength(b)..]) else []
  }

  /** How many bytes they take. */
  function Used(b: seq<Byte>): (n: nat)
    ensures n <= |b|
  {
    if StartsWithSection(b) then SectionLength(b) + Used(b[SectionLength(b)..]) else 0
  }

  /** One turn of the search loop. */
  lemma SectionsStep(b: seq<Byte>)
    ensures !StartsWithSection(b) ==> Sections(b) == [] && Used(b) == 0
    ensures StartsWithSection(b) ==>
              var n := SectionLength(b);
              Sections(b) == [b[..n]] + Sections(b[n..]) && Used(b) == n + Used(b[n..])
  {
  }

  /** The same inside a run, from position `p` on. */
  lemma SearchTurn(run: seq<Byte>, p: nat)
    requires p + 3 <= |run|
    ensures var n := 3 + Be16(run[p + 1] % 16, run[p + 2]);
            if n <= MAX_SECTION_SIZE && p + n <= |run|
            then Sections(run[p..]) == [run[p..p + n]] + Sections(run[p + n..]) && Used(run[p..]) == n + Used(run[p + n..])
            else Sections(run[p..]) == [] && Used(run[p..]) == 0
  {
    var tail, n := run[p..], 3 + Be16(run[p + 1] % 16, run[p + 2]);
    SectionsStep(tail);
    assert tail[1] == run[p + 1] && tail[2] == run[p + 2];
    if n <= MAX_SECTION_SIZE && p + n <= |run| {
      assert tail[..n] == run[p..p + n] && tail[n..] == run[p + n..];
    }
  }

  lemma SearchEnd(run: seq<Byte>, p: nat)
    requires p <= |run| <= p + 2
    ensures Sections(run[p..]) == [] && Used(run[p..]) == 0
  {
  }

  lemma SliceOfPrefix<T>(a: seq<T>, t: nat, p: nat, q: nat)
    requires p <= q <= t <= |a|
    ensures a[..t][p..q] == a[p..q]
  {
  }

  lemma FirstStays(b: seq<Byte>, x: seq<Byte>)
    requires StartsWithSection(b)
    ensures var n := SectionLength(b);
            && n <= |b| && StartsWithSection(b + x) && SectionLength(b + x) == n
            && (b + x)[..n] == b[..n] && (b + x)[n..] == b[n..] + x
  {
  }

  /** More bytes never change the sections found; the search goes on where it stopped. */
  lemma {:induction false} SectionsExtend(b: seq<Byte>, x: seq<Byte>)
    ensures Sections(b + x) == Sections(b) + Sections(b[Used(b)..] + x)
    ensures Used(b + x) == Used(b) + Used(b[Used(b)..] + x)
  {
    if StartsWithSection(b) {
      hide Sections, Used, StartsWithSection;
      var n := SectionLength(b);
      SectionsExtend(b[n..], x);
      FirstStays(b, x);
      SectionsStep(b);
      SectionsStep(b + x);
      assert b[n..][Used(b[n..])..] == b[Used(b)..];
      Associative([b[..n]], Sections(b[n..]), Sections(b[Used(b)..] + x));
    } else {
      assert b[0..] == b;
    }
  }

  /** A section as the standard frames it: its own length field gives its size. */
  predicate IsSection(s: seq<Byte>) {
    3 <= |s| <= 4096 && |s| == 3 + Be16(s[1] % 16, s[2])
  }

  predicate AllSections(ss: seq<seq<Byte>>) {
    forall i :: 0 <= i < |ss| ==> IsSection(ss[i])
  }

  predicate Stuffing(b: seq<Byte>) {
    forall i :: 0 <= i < |b| ==> b[i] == 0xff
  }

  lemma StuffingHasNoSection(b: seq<Byte>)
    requires Stuffing(b)
    ensures Sections(b) == [] && Used(b) == 0
  {
  }

  lemma {:induction false} SectionsOfConcat(ss: seq<seq<Byte>>, tail: seq<Byte>)
    requires AllSections(ss) && !StartsWithSection(tail)
    ensures Sections(Concat(ss) + tail) == ss && Used(Concat(ss) + tail) == |Concat(ss)|
  {
    if ss == [] {
      assert Concat(ss) + tail == tail;
    } else {
      var b := Concat(ss) + tail;
      Associative(ss[0], Concat(ss[1..]), tail);
      assert SectionLength(b) == SectionLength(ss[0]);
      assert b[|ss[0]|..] == Concat(ss[1..]) + tail;
      assert b[..|ss[0]|] == ss[0];
      SectionsOfConcat(ss[1..], tail);
    }
  }

  /** Something is found exactly when a whole section is there. */
  lemma FoundExactlyWhen(b: seq<Byte>)
    ensures Sections(b) != [] <==> exists n :: 0 <= n <= |b| && IsSection(b[..n])
  {
    if StartsWithSection(b) { assert IsSection(b[..SectionLength(b)]); }
  }

  /** A proper prefix of a section does not pass for a whole one. */
  lemma ProperPrefix(s: seq<Byte>, n: nat)
    requires IsSection(s) && n < |s|
    ensures !StartsWithSection(s[..n])
  {
  }

  // ---------------------------------------------------------------------------------------------
  // Packets of the PID
  // ---------------------------------------------------------------------------------------------

  /** A transport packet as far as section reassembly looks at it; no payload when `payload` is []. */
  datatype Pkt = Pkt(pusi: bool, cc: nat, discontinuity: bool, payload: seq<Byte>)

  predicate Flag(b: int, mask: int)
    requires b >= 0 && mask > 0
  {
    b / mask % 2 == 1
  }

  /** payload(): how many payload bytes a packet has; 0 also for a corrupt adaptation field. */
  function PayloadLength(buf: seq<Byte>): (n: nat)
    requires |buf| == TS_SIZE
    ensures n <= 184
  {
    if !Flag(buf[3], 0x10) then 0
    else if Flag(buf[3], 0x20) then (if buf[4] > 183 then 0 else 183 - buf[4])
    else 184
  }

  function ParsePkt(buf: seq<Byte>): Pkt
    requires |buf| == TS_SIZE
  {
    Pkt(Flag(buf[1], 0x40), buf[3] % 16,
        Flag(buf[3], 0x20) && buf[4] > 0 && Flag(buf[5], 0x80),
        buf[TS_SIZE - PayloadLength(buf)..])
  }

  // ---------------------------------------------------------------------------------------------
  // What one packet does
  // ---------------------------------------------------------------------------------------------

  /** `run` holds the bytes since the last restart, `parsed` how many of them have been searched. */
  datatype State = State(run: seq<Byte>, parsed: nat, cc: nat, pusiSeen: bool)

  datatype Step = Step(state: State, delivered: seq<seq<Byte>>)

  ghost predicate StateOk(s: State) {
    s.parsed <= |s.run| <= MAX_SECFEED_SIZE
  }

  /** Bytes past the end of the buffer are lost. */
  function Appended(run: seq<Byte>, x: seq<Byte>): seq<Byte> {
    (run + x)[..Min(MAX_SECFEED_SIZE, |run + x|)]
  }

  function Restarted(s: State): State {
    s.(run := [], parsed := 0)
  }

  function Feed(s: State, x: seq<Byte>): Step
    requires StateOk(s)
  {
    var run := Appended(s.run, x);
    if x == [] || |s.run| >= MAX_SECFEED_SIZE then Step(s, [])
    else
      var rest := run[s.parsed..];
      Step(s.(run := run, parsed := s.parsed + Used(rest)), if s.pusiSeen then Sections(rest) else [])
  }

  lemma FeedOk(s: State, x: seq<Byte>)
    requires StateOk(s)
    ensures StateOk(Feed(s, x).state) && Feed(s, x).state.pusiSeen == s.pusiSeen && Feed(s, x).state.cc == s.cc
  {
  }

  /** The pointer field leaves a byte of the payload to point at. */
  predicate PointerOk(p: Pkt) {
    |p.payload| > 1 && p.payload[0] < |p.payload|
  }

  function Before(p: Pkt): seq<Byte>
    requires PointerOk(p)
  {
    p.payload[1..1 + p.payload[0]]
  }

  function After(p: Pkt): seq<Byte>
    requires PointerOk(p)
  {
    p.payload[1 + p.payload[0]..]
  }

  predicate Continuous(s: State, p: Pkt) {
    (s.cc + 1) % 16 == p.cc && !p.discontinuity
  }

  /** A discontinuity throws the run away and waits for the next start of a section. */
  function Checked(s: State, p: Pkt): State {
    (if Continuous(s, p) then s else Restarted(s).(pusiSeen := false)).(cc := p.cc)
  }

  function OnPkt(s: State, p: Pkt): Step
    requires StateOk(s)
  {
    if p.payload == [] then Step(s.(parsed := 0), [])
    else
      var t := Checked(s, p);
      if !p.pusi then Feed(t, p.payload)
      else if !PointerOk(p) then Step(t, [])
      else
        var old_ := Feed(t, Before(p));
        FeedOk(t, Before(p));
        var new_ := Feed(Restarted(old_.state).(pusiSeen := true), After(p));
        Step(new_.state, old_.delivered + new_.delivered)
  }

  lemma OnPktOk(s: State, p: Pkt)
    requires StateOk(s)
    ensures StateOk(OnPkt(s, p).state)
  {
    if p.payload != [] && p.pusi && PointerOk(p) {
      FeedOk(Checked(s, p), Before(p));
    }
  }

  function OnPkts(s: State, ps: seq<Pkt>): Step
    requires StateOk(s)
    decreases |ps|
  {
    if ps == [] then Step(s, []) else
      OnPktOk(s, ps[0]);
      var first := OnPkt(s, ps[0]);
      var rest := OnPkts(first.state, ps[1..]);
      Step(rest.state, first.delivered + rest.delivered)
  }

  // ---------------------------------------------------------------------------------------------
  // The feed object
  // ---------------------------------------------------------------------------------------------

  class SectionFeed {
    const secbufBase: array<Byte>
    var tsfeedp: nat
    var secbufp: nat
    /** Offset of the pointer that goes along with `secbufp`, except when the latter is rewound. */
    var secbuf: nat
    var cc: nat
    var pusiSeen: bool
    /** Every section handed to the filters, in order. */
    var delivered: seq<seq<Byte>>

    ghost predicate Valid()
      reads this
    {
      && secbufBase.Length == MAX_SECFEED_SIZE && secbufp <= tsfeedp <= MAX_SECFEED_SIZE
      && secbuf <= tsfeedp && (secbuf == secbufp || secbufp == 0)
    }

    ghost function View(): State
      requires Valid()
      reads this, secbufBase
    {
      State(secbufBase[..tsfeedp], secbufp, cc, pusiSeen)
    }

    /** dmx_section_feed_start_filtering */
    constructor ()
      ensures Valid() && fresh(secbufBase) && View().run == [] && !pusiSeen && delivered == []
    {
      secbufBase := new Byte[MAX_SECFEED_SIZE];
      tsfeedp, secbufp, secbuf, cc, pusiSeen, delivered := 0, 0, 0, 0, false, [];
    }

    /**
     * neumo_dvb_dmx_swfilter_section_new: what has not been searched is thrown away. It looks at the
     * first and the last byte of that, from `secbuf` on, to see whether it was only stuffing; it looks
     * `inside` the buffer exactly when the rewind has not left `secbuf` too far behind. If it was only
     * stuffing, both bytes were 0xff; otherwise a discontinuity is noted.
     */
    method SectionNew() returns (inside: bool, loss: bool)
      requires Valid()
      modifies `tsfeedp, `secbufp, `secbuf
      ensures Valid() && View() == Restarted(old(View())) && secbuf == 0
      ensures inside <==> old(secbuf) - old(secbufp) + old(tsfeedp) <= MAX_SECFEED_SIZE || old(secbufp) == old(tsfeedp)
      ensures old(secbuf) == old(secbufp) ==> inside
      ensures old(secbuf) == old(secbufp) ==>
                var rest := old(View()).run[old(secbufp)..];
                loss <==> rest != [] && (rest[0] != 0xff || rest[|rest| - 1] != 0xff)
    {
      inside, loss := true, false;
      if secbufp < tsfeedp {
        var n := tsfeedp - secbufp;
        inside := secbuf + n <= MAX_SECFEED_SIZE;
        if inside { loss := secbufBase[secbuf] != 0xff || secbufBase[secbuf + n - 1] != 0xff; }
      }
      tsfeedp, secbufp, secbuf := 0, 0, 0;
      assert secbufBase[..0] == [];
    }

    /** neumo_dvb_dmx_swfilter_section_copy_dump */
    method CopyDump(buf: seq<Byte>)
      requires Valid()
      modifies `tsfeedp, `secbufp, `secbuf, `delivered, secbufBase
      ensures Valid() && View() == Feed(old(View()), buf).state
      ensures delivered == old(delivered) + Feed(old(View()), buf).delivered
    {
      hide Sections, Used;
      if tsfeedp >= MAX_SECFEED_SIZE { return; }
      var len := |buf|;
      if tsfeedp + len > MAX_SECFEED_SIZE {
        len := MAX_SECFEED_SIZE - tsfeedp;
      }
      if len <= 0 { return; }
      ghost var run := secbufBase[..tsfeedp];
      forall i | 0 <= i < len { secbufBase[tsfeedp + i] := buf[i]; }
      tsfeedp := tsfeedp + len;
      assert secbufBase[..tsfeedp] == Appended(run, buf);
      secbuf := secbufp;
      Dump();
    }

    /** The loop that hands over every complete section, wherever it lies in the run. */
    method Dump()
      requires Valid() && secbuf == secbufp
      modifies `secbufp, `secbuf, `delivered
      ensures var rest := old(View()).run[old(secbufp)..];
              && Valid() && secbufp == old(secbufp) + Used(rest)
              && delivered == old(delivered) + if pusiSeen then Sections(rest) else []
    {
      hide Sections, Used;
      ghost var run, from := View().run, secbufp;
      ghost var found: seq<seq<Byte>> := [];
      while secbufp + 2 < tsfeedp
        invariant Valid() && from <= secbufp && secbuf == secbufp
        invariant Sections(run[from..]) == found + Sections(run[secbufp..])
        invariant from + Used(run[from..]) == secbufp + Used(run[secbufp..])
        invariant delivered == old(delivered) + if pusiSeen then found else []
        decreases tsfeedp - secbufp
      {
        var section := SectionAhead();
        if section == [] { return; }
        if pusiSeen {
          delivered := delivered + [section];
        }
        Associative(found, [section], Sections(run[secbufp + |section|..]));
        found := found + [section];
        secbufp := secbufp + |section|;
        secbuf := secbuf + |section|;
      }
      SearchEnd(run, secbufp);
    }

    /** One turn of the loop: the section at the search position, [] if it is not all there. */
    method SectionAhead() returns (section: seq<Byte>)
      requires Valid() && secbuf == secbufp && secbufp + 2 < tsfeedp
      ensures var run := View().run;
              if section == [] then Sections(run[secbufp..]) == [] && Used(run[secbufp..]) == 0
              else
                && secbufp + |section| <= |run|
                && Sections(run[secbufp..]) == [section] + Sections(run[secbufp + |section|..])
                && Used(run[secbufp..]) == |section| + Used(run[secbufp + |section|..])
    {
      hide Sections, Used, StartsWithSection, SectionLength;
      SearchTurn(View().run, secbufp);
      var seclen := 3 + Be16(secbufBase[secbuf + 1] % 16, secbufBase[secbuf + 2]);
      if seclen <= 0 || seclen > MAX_SECTION_SIZE || seclen + secbufp > tsfeedp { return []; }
      SliceOfPrefix(secbufBase[..], tsfeedp, secbufp, secbufp + seclen);
      section := secbufBase[secbuf..secbuf + seclen];
    }

    /** The end of one section, and the start of another one behind it. */
    method EndAndBegin(before: seq<Byte>, after: seq<Byte>)
      requires Valid()
      modifies `tsfeedp, `secbufp, `secbuf, `pusiSeen, `delivered, secbufBase
      ensures Valid() && StateOk(Feed(old(View()), before).state)
      ensures var first := Feed(old(View()), before);
              var begin := Restarted(first.state).(pusiSeen := true);
              View() == Feed(begin, after).state && delivered == old(delivered) + (first.delivered + Feed(begin, after).delivered)
    {
      hide Sections, Used, Feed;
      FeedOk(View(), before);
      CopyDump(before);
      pusiSeen := true;
      var inside, loss := SectionNew();
      CopyDump(after);
    }

    /** neumo_dvb_dmx_swfilter_section_packet */
    method SectionPacket(buf: seq<Byte>) returns (ret: int)
      requires Valid() && |buf| == TS_SIZE
      modifies this, secbufBase
      ensures Valid()
      ensures ret == if ParsePkt(buf).payload == [] then -1 else 0
      ensures ret == -1 ==> View() == old(View()) && delivered == old(delivered)
      ensures ret != -1 ==> View() == OnPkt(old(View()), ParsePkt(buf)).state
      ensures ret != -1 ==> delivered == old(delivered) + OnPkt(old(View()), ParsePkt(buf)).delivered
    {
      hide Sections, Used, Feed;
      var count := PayloadLength(buf);
      if count == 0 { return -1; }
      var p := TS_SIZE - count;
      var newCc := buf[3] % 16;
      var ccok := (cc + 1) % 16 == newCc;
      var dc := Flag(buf[3], 0x20) && buf[4] > 0 && Flag(buf[5], 0x80);
      ghost var pkt := ParsePkt(buf);
      if !ccok || dc {
        pusiSeen := false;
        var inside, loss := SectionNew();
      }
      cc := newCc;
      assert View() == Checked(old(View()), pkt);
      if Flag(buf[1], 0x40) {
        if count > 1 && buf[p] < count {
          var beforeLen: int := buf[p];
          assert buf[p + 1..p + 1 + beforeLen] == Before(pkt);
          assert buf[p + 1 + beforeLen..] == After(pkt);
          EndAndBegin(buf[p + 1..p + 1 + beforeLen], buf[p + 1 + beforeLen..]);
        }
      } else {
        CopyDump(buf[p..]);
      }
      ret := 0;
    }

    /** The section case of neumo_dvb_dmx_swfilter_packet_type. */
    method PacketType(buf: seq<Byte>)
      requires Valid() && |buf| == TS_SIZE
      modifies this, secbufBase
      ensures Valid() && View() == OnPkt(old(View()), ParsePkt(buf)).state
      ensures delivered == old(delivered) + OnPkt(old(View()), ParsePkt(buf)).delivered
    {
      hide Sections, Used, Feed;
      var ret := SectionPacket(buf);
      if ret < 0 {
        // only the search position goes back, not the end of the collected bytes
        secbufp := 0;
      }
    }
  }
}
