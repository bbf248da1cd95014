/**
 * The transport packet framer of neumo-dvb-demux.c: packets of 188 or 204 bytes are found in a
 * stream that arrives in chunks; what is left of a packet at the end of a chunk is carried over.
 */
module Framer {
  import opened Bytes

  const TS_SIZE := 188
  const SYNC: Byte := 0x47
  const SYNC_INVERTED: Byte := 0xB8
  const TSBUF_SIZE := 204

  predicate PktSize(pktsize: int) {
    pktsize == 188 || pktsize == 204
  }

  predicate Sync(b: Byte, pktsize: int) {
    b == SYNC || (pktsize == 204 && b == SYNC_INVERTED)
  }

  // ---------------------------------------------------------------------------------------------
  // One chunk
  // ---------------------------------------------------------------------------------------------

  /** The first sync byte from `pos` on, or the end. */
  function FirstSync(buf: seq<Byte>, pos: nat, pktsize: int): (f: nat)
    requires pos <= |buf|
    ensures pos <= f <= |buf| && (f < |buf| ==> Sync(buf[f], pktsize))
    ensures forall i :: pos <= i < f ==> !Sync(buf[i], pktsize)
    decreases |buf| - pos
  {
    if pos == |buf| || Sync(buf[pos], pktsize) then pos else FirstSync(buf, pos + 1, pktsize)
  }

  /** Where the next packet is looked for: one packet earlier if that is where a packet could have begun. */
  function NextPacket(buf: seq<Byte>, pos: nat, pktsize: int): (n: nat)
    requires pos <= |buf| && PktSize(pktsize)
    ensures pos < n + pktsize && n <= |buf| && (n < |buf| ==> Sync(buf[n], pktsize))
    ensures n < pos ==> n + pktsize <= |buf|
  {
    var f := FirstSync(buf, pos, pktsize);
    if f > pos && f >= pktsize && Sync(buf[f - pktsize], pktsize) then f - pktsize else f
  }

  /** The first byte of a packet is always passed on as 0x47. */
  function Normal(x: seq<Byte>): (y: seq<Byte>)
    ensures |y| == |x|
  {
    if x == [] then [] else [SYNC] + x[1..]
  }

  /** Packets found, and where the search ended. */
  datatype Found = Found(packets: seq<seq<Byte>>, at: nat)

  function Frame(buf: seq<Byte>, p: nat, pktsize: int): (r: Found)
    requires p <= |buf| && PktSize(pktsize)
    ensures r.at <= |buf| < r.at + pktsize && (r.at < |buf| ==> Sync(buf[r.at], pktsize))
    decreases |buf| - p
  {
    var n := NextPacket(buf, p, pktsize);
    if |buf| - n < pktsize then Found([], n)
    else
      var r := Frame(buf, n + pktsize, pktsize);
      Found([Normal(buf[n..n + TS_SIZE])] + r.packets, r.at)
  }

  /** What is carried over to the next chunk, and the packets of this one. */
  datatype Out = Out(carry: seq<Byte>, packets: seq<seq<Byte>>)

  function Filter(carry: seq<Byte>, buf: seq<Byte>, pktsize: int): (r: Out)
    requires PktSize(pktsize) && Carry(carry, pktsize)
    ensures Carry(r.carry, pktsize)
  {
    var j := if carry == [] then 0 else pktsize - |carry|;
    if |buf| < j then Out(carry + buf, [])
    else
      var r := Frame(buf, j, pktsize);
      Out(Normal(buf[r.at..]), (if carry == [] then [] else [(carry + buf[..j])[..TS_SIZE]]) + r.packets)
  }

  /** A packet that is not complete yet. */
  predicate Carry(carry: seq<Byte>, pktsize: int) {
    |carry| < pktsize && (carry != [] ==> carry[0] == SYNC)
  }

  // ---------------------------------------------------------------------------------------------
  // The demux
  // ---------------------------------------------------------------------------------------------

  /** find_next_packet */
  method FindNextPacket(buf: seq<Byte>, pos0: nat, pktsize: int) returns (r: int)
    requires pos0 <= |buf| && PktSize(pktsize)
    ensures r == NextPacket(buf, pos0, pktsize)
  {
    var pos := pos0;
    while pos < |buf|
      invariant pos0 <= pos <= |buf| && FirstSync(buf, pos0, pktsize) == FirstSync(buf, pos, pktsize)
      invariant forall i :: pos0 <= i < pos ==> !Sync(buf[i], pktsize)
    {
      if buf[pos] == SYNC || (pktsize == 204 && buf[pos] == SYNC_INVERTED) { break; }
      pos := pos + 1;
    }
    var lost := pos - pos0;
    if lost != 0 {
      var backtrack := pos - pktsize;
      if backtrack >= 0 && (buf[backtrack] == SYNC || (pktsize == 204 && buf[backtrack] == SYNC_INVERTED)) {
        return backtrack;
      }
    }
    return pos;
  }

  class DvbDemux {
    const tsbuf: array<Byte>
    var tsbufp: nat
    /** The packets passed on, in order. */
    var output: seq<seq<Byte>>

    ghost predicate Valid(pktsize: int)
      reads this, tsbuf
    {
      PktSize(pktsize) && tsbuf.Length == TSBUF_SIZE && tsbufp <= TSBUF_SIZE && Carry(tsbuf[..tsbufp], pktsize)
    }

    constructor ()
      ensures Valid(188) && Valid(204) && tsbufp == 0 && output == [] && fresh(tsbuf)
    {
      tsbuf := new Byte[TSBUF_SIZE];
      tsbufp, output := 0, [];
    }

    method Store(at: nat, x: seq<Byte>)
      requires at + |x| <= tsbuf.Length
      modifies tsbuf
      ensures tsbuf[..at + |x|] == old(tsbuf[..at]) + x
    {
      forall i | 0 <= i < |x| { tsbuf[at + i] := x[i]; }
    }

    /** A packet is passed on; an inverted sync byte is put right in a copy. */
    method PassOn(packet: seq<Byte>, pktsize: int)
      requires |packet| == TS_SIZE && Sync(packet[0], pktsize) && tsbuf.Length == TSBUF_SIZE
      modifies `output, tsbuf
      ensures output == old(output) + [Normal(packet)]
    {
      var q := packet;
      if pktsize == 204 && q[0] == SYNC_INVERTED {
        Store(0, q);
        ghost var copy := tsbuf[..TS_SIZE];
        tsbuf[0] := SYNC;
        q := tsbuf[..TS_SIZE];
        assert q[1..] == copy[1..];
      }
      assert q == Normal(packet);
      output := output + [q];
    }

    /** The search loop of _neumo_dvb_dmx_swfilter. */
    method FilterFrom(buf: seq<Byte>, p0: nat, pktsize: int) returns (p: nat)
      requires p0 <= |buf| && PktSize(pktsize) && tsbuf.Length == TSBUF_SIZE
      modifies `output, tsbuf
      ensures p == Frame(buf, p0, pktsize).at
      ensures output == old(output) + Frame(buf, p0, pktsize).packets
    {
      hide Frame, NextPacket, Normal;
      p := p0;
      ghost var found: seq<seq<Byte>> := [];
      assert [] + Frame(buf, p0, pktsize).packets == Frame(buf, p0, pktsize).packets;
      while true
        invariant p <= |buf| && output == old(output) + found
        invariant found + Frame(buf, p, pktsize).packets == Frame(buf, p0, pktsize).packets
        invariant Frame(buf, p, pktsize).at == Frame(buf, p0, pktsize).at
        decreases |buf| - p
      {
        FrameStep(buf, p, pktsize);
        var n := FindNextPacket(buf, p, pktsize);
        p := n;
        if p >= |buf| { break; }
        if |buf| - p < pktsize { break; }
        PassOn(buf[p..p + TS_SIZE], pktsize);
        Associative(found, [Normal(buf[p..p + TS_SIZE])], Frame(buf, p + pktsize, pktsize).packets);
        found := found + [Normal(buf[p..p + TS_SIZE])];
        p := p + pktsize;
      }
      assert found + [] == found;
    }

    /** The packet carried over is completed. */
    method Complete(x: seq<Byte>, pktsize: int)
      requires Valid(pktsize) && tsbufp != 0 && tsbufp + |x| == pktsize
      modifies this, tsbuf
      ensures tsbufp == 0 && output == old(output) + [(old(tsbuf[..tsbufp]) + x)[..TS_SIZE]]
    {
      ghost var carry := tsbuf[..tsbufp];
      Store(tsbufp, x);
      assert tsbuf[..TS_SIZE] == (carry + x)[..TS_SIZE];
      assert tsbuf[0] == (carry + x)[0];
      if tsbuf[0] == SYNC {
        output := output + [tsbuf[..TS_SIZE]];
      }
      tsbufp := 0;
    }

    /** What is left of the chunk is carried over. */
    method Keep(x: seq<Byte>, pktsize: int)
      requires tsbuf.Length == TSBUF_SIZE && PktSize(pktsize) && tsbufp == 0 && |x| < pktsize && (x != [] ==> Sync(x[0], pktsize))
      modifies `tsbufp, tsbuf
      ensures tsbufp == |x| && tsbuf[..tsbufp] == Normal(x)
    {
      var i := |x|;
      if i != 0 {
        Store(0, x);
        tsbufp := i;
        ghost var copy := tsbuf[..i];
        assert tsbuf[0] == copy[0];
        if pktsize == 204 && tsbuf[0] == SYNC_INVERTED {
          tsbuf[0] := SYNC;
        }
        assert tsbuf[..i][1..] == copy[1..];
      }
    }

    /** _neumo_dvb_dmx_swfilter */
    method Swfilter(buf: seq<Byte>, pktsize: int)
      requires Valid(pktsize)
      modifies this, tsbuf
      ensures Valid(pktsize) && tsbufp < pktsize
      ensures var r := Filter(old(tsbuf[..tsbufp]), buf, pktsize);
              tsbuf[..tsbufp] == r.carry && output == old(output) + r.packets
    {
      hide Frame, Normal;
      ghost var carry := tsbuf[..tsbufp];
      ghost var r := Filter(carry, buf, pktsize);
      ghost var head: seq<seq<Byte>> := [];
      var p: nat := 0;
      if tsbufp != 0 {
        var i := tsbufp;
        var j := pktsize - i;
        if |buf| < j {
          Store(i, buf);
          tsbufp := tsbufp + |buf|;
          assert output + [] == output;
          assert tsbuf[..tsbufp] == r.carry;
          return;
        }
        Complete(buf[..j], pktsize);
        head := [(carry + buf[..j])[..TS_SIZE]];
        p := p + j;
      }
      ghost var found := Frame(buf, p, pktsize);
      p := FilterFrom(buf, p, pktsize);
      Keep(buf[p..], pktsize);
      assert old(output) + [] == old(output);
      Associative(old(output), head, found.packets);
      assert tsbuf[..tsbufp] == r.carry;
    }
  }

  lemma FrameStep(buf: seq<Byte>, p: nat, pktsize: int)
    requires p <= |buf| && PktSize(pktsize)
    ensures var n := NextPacket(buf, p, pktsize);
            var r := Frame(buf, p, pktsize);
            if |buf| - n < pktsize then r == Found([], n)
            else n + pktsize <= |buf| && Sync(buf[n], pktsize) &&
                 var s := Frame(buf, n + pktsize, pktsize);
                 r == Found([Normal(buf[n..n + TS_SIZE])] + s.packets, s.at)
  {
  }

  // ---------------------------------------------------------------------------------------------
  // A stream of packets, in any chunks
  // ---------------------------------------------------------------------------------------------

  /** Nothing in it could be the first byte of a packet. */
  predicate Garbage(g: seq<Byte>, pktsize: int) {
    forall i :: 0 <= i < |g| ==> !Sync(g[i], pktsize)
  }

  predicate IsPacket(x: seq<Byte>, pktsize: int) {
    |x| == pktsize && PktSize(pktsize) && (x[0] == 0x47 || (pktsize == 204 && x[0] == 0xB8))
  }

  predicate AllPackets(xs: seq<seq<Byte>>, pktsize: int) {
    forall i :: 0 <= i < |xs| ==> IsPacket(xs[i], pktsize)
  }

  /** Whatever the bytes, what is passed on are 188 bytes behind a sync byte, and so is what is carried over. */
  lemma {:induction false} FoundArePackets(buf: seq<Byte>, p: nat, pktsize: int)
    requires p <= |buf| && PktSize(pktsize)
    ensures forall x :: x in Frame(buf, p, pktsize).packets ==> |x| == 188 && x[0] == 0x47
    decreases |buf| - p
  {
    var n := NextPacket(buf, p, pktsize);
    if |buf| - n >= pktsize { FoundArePackets(buf, n + pktsize, pktsize); }
  }

  lemma PassedOnArePackets(carry: seq<Byte>, buf: seq<Byte>, pktsize: int)
    requires PktSize(pktsize) && Carry(carry, pktsize)
    ensures var r := Filter(carry, buf, pktsize);
            && (forall x :: x in r.packets ==> |x| == 188 && x[0] == 0x47)
            && |r.carry| < pktsize && (r.carry != [] ==> r.carry[0] == 0x47)
  {
    hide Frame, Normal;
    var j := if carry == [] then 0 else pktsize - |carry|;
    if |buf| >= j { FoundArePackets(buf, j, pktsize); }
  }

  /** The beginning of a packet. */
  predicate Part(x: seq<Byte>, pktsize: int) {
    |x| < pktsize && (x != [] ==> x[0] == 0x47 || (pktsize == 204 && x[0] == 0xB8))
  }

  function PassedOn(xs: seq<seq<Byte>>, pktsize: int): (ys: seq<seq<Byte>>)
    requires AllPackets(xs, pktsize)
    ensures |ys| == |xs|
  {
    if xs == [] then [] else [Normal(xs[0][..TS_SIZE])] + PassedOn(xs[1..], pktsize)
  }

  /** Garbage, packets, and the beginning of another one. */
  datatype Stream = Stream(garbage: seq<Byte>, packets: seq<seq<Byte>>, tail: seq<Byte>)

  predicate StreamOk(s: Stream, pktsize: int) {
    PktSize(pktsize) && Garbage(s.garbage, pktsize) && AllPackets(s.packets, pktsize) && Part(s.tail, pktsize)
  }

  function Flat(s: Stream): seq<Byte> {
    s.garbage + (Concat(s.packets) + s.tail)
  }

  /** The first byte of packets, if there is any, is a sync byte. */
  lemma StartsWithSync(s: Stream, pktsize: int)
    requires StreamOk(s, pktsize)
    ensures var b := Concat(s.packets) + s.tail; b != [] ==> Sync(b[0], pktsize)
    ensures s.packets != [] ==> |Concat(s.packets)| >= pktsize && Concat(s.packets)[..pktsize] == s.packets[0]
    ensures s.packets != [] ==> Concat(s.packets)[pktsize..] == Concat(s.packets[1..])
  {
  }

  /** Garbage at the start of a chunk is skipped, up to the first packet. */
  lemma SkipsGarbage(buf: seq<Byte>, p: nat, g: seq<Byte>, pktsize: int)
    requires PktSize(pktsize) && p <= |buf| && Garbage(g, pktsize) && (g != [] ==> p == 0)
    requires if |buf| - p <= |g| then buf[p..] == g[..|buf| - p]
             else buf[p..][..|g|] == g && Sync(buf[p + |g|], pktsize)
    ensures NextPacket(buf, p, pktsize) == Min(|buf|, p + |g|)
  {
    var f := Min(|buf|, p + |g|);
    assert forall i :: p <= i < f ==> buf[i] == buf[p..][i - p] == g[i - p];
  }

  /** What the search finds in a chunk `buf[p..]` of a stream, and what is left of the stream. */
  lemma {:induction false} FrameStream(buf: seq<Byte>, p: nat, s: Stream, pktsize: int, more: seq<Byte>) returns (s': Stream)
    requires p <= |buf| && StreamOk(s, pktsize) && buf[p..] + more == Flat(s) && (s.garbage != [] ==> p == 0)
    ensures StreamOk(s', pktsize) && s'.tail == s.tail
    ensures var r := Frame(buf, p, pktsize);
            && r.packets + PassedOn(s'.packets, pktsize) == PassedOn(s.packets, pktsize)
            && buf[r.at..] + more == Flat(s') && (buf[r.at..] != [] ==> s'.garbage == [])
    decreases |buf| - p
  {
    hide Frame, NextPacket, Sync, Concat, Normal, Garbage, Part, AllPackets, Flat, PassedOn;
    var n := FirstPacket(buf, p, s, pktsize, more);
    FrameStep(buf, p, pktsize);
    if |buf| - n < pktsize {
      s' := s.(garbage := s.garbage[n - p..]);
      NothingFound(s, s', pktsize);
    } else {
      var s1 := WholePacket(buf[n..], more, s, pktsize);
      assert buf[n..][pktsize..] == buf[n + pktsize..];
      s' := FrameStream(buf, n + pktsize, s1, pktsize, more);
      assert s.packets[0][..TS_SIZE] == buf[n..n + TS_SIZE];
      OneMore(s.packets, s'.packets, Frame(buf, n + pktsize, pktsize).packets, pktsize);
    }
  }

  /** Where the search stops first: behind the garbage, or at the end of the chunk. */
  lemma FirstPacket(buf: seq<Byte>, p: nat, s: Stream, pktsize: int, more: seq<Byte>) returns (n: nat)
    requires p <= |buf| && StreamOk(s, pktsize) && buf[p..] + more == Flat(s) && (s.garbage != [] ==> p == 0)
    ensures p <= n <= |buf| && n - p <= |s.garbage| && NextPacket(buf, p, pktsize) == n
    ensures buf[n..] + more == Flat(s.(garbage := s.garbage[n - p..]))
    ensures n < |buf| ==> n - p == |s.garbage| && buf[n..] + more == Concat(s.packets) + s.tail
  {
    hide NextPacket, Sync, Concat;
    var g := s.garbage;
    var rest := Concat(s.packets) + s.tail;
    n := Min(|buf|, p + |g|);
    StartsWithSync(s, pktsize);
    Overlap(buf[p..], more, g, rest);
    if |buf| - p <= |g| {
      SkipsGarbage(buf, p, g, pktsize);
      assert buf[|buf|..] == [] && [] + more == more;
      if |buf| - p == |g| { assert g[|g|..] + rest == rest; }
    } else {
      assert buf[p..][|g|..] == buf[n..];
      assert buf[n] == rest[0];
      SkipsGarbage(buf, p, g, pktsize);
      assert g[|g|..] + rest == rest;
    }
  }

  lemma NothingFound(s: Stream, s': Stream, pktsize: int)
    requires StreamOk(s, pktsize) && exists k :: 0 <= k <= |s.garbage| && s' == s.(garbage := s.garbage[k..])
    ensures StreamOk(s', pktsize) && [] + PassedOn(s'.packets, pktsize) == PassedOn(s.packets, pktsize)
  {
    hide Sync;
  }

  lemma OneMore(xs: seq<seq<Byte>>, left: seq<seq<Byte>>, found: seq<seq<Byte>>, pktsize: int)
    requires AllPackets(xs, pktsize) && xs != [] && AllPackets(left, pktsize)
    requires AllPackets(xs[1..], pktsize) && found + PassedOn(left, pktsize) == PassedOn(xs[1..], pktsize)
    ensures |xs[0]| >= TS_SIZE
    ensures [Normal(xs[0][..TS_SIZE])] + found + PassedOn(left, pktsize) == PassedOn(xs, pktsize)
  {
    hide Normal, Sync;
    Associative([Normal(xs[0][..TS_SIZE])], found, PassedOn(left, pktsize));
  }

  /** There is room for a packet: the first one is there. */
  lemma WholePacket(a: seq<Byte>, more: seq<Byte>, s: Stream, pktsize: int) returns (s1: Stream)
    requires StreamOk(s, pktsize) && a + more == Concat(s.packets) + s.tail && |a| >= pktsize
    ensures s.packets != [] && a[..pktsize] == s.packets[0] && IsPacket(s.packets[0], pktsize)
    ensures StreamOk(s1, pktsize) && s1 == Stream([], s.packets[1..], s.tail) && a[pktsize..] + more == Flat(s1)
  {
    hide Sync, Concat;
    NoPackets(s.packets);
    StartsWithSync(s, pktsize);
    var rest := Concat(s.packets) + s.tail;
    assert |rest| >= pktsize;
    s1 := Stream([], s.packets[1..], s.tail);
    assert a[..pktsize] == (a + more)[..pktsize] == rest[..pktsize] == s.packets[0];
    assert a[pktsize..] + more == (a + more)[pktsize..] == rest[pktsize..] == Concat(s.packets[1..]) + s.tail;
    NoGarbage(s1);
  }

  lemma NoGarbage(s: Stream)
    ensures s.garbage == [] ==> Flat(s) == Concat(s.packets) + s.tail
  {
  }

  lemma NoPackets(xs: seq<seq<Byte>>)
    ensures xs == [] ==> Concat(xs) == []
  {
  }

  /** Two ways of cutting the same bytes. */
  lemma Overlap(a: seq<Byte>, b: seq<Byte>, c: seq<Byte>, d: seq<Byte>)
    requires a + b == c + d
    ensures |a| <= |c| ==> a == c[..|a|] && b == c[|a|..] + d
    ensures |a| > |c| ==> a[..|c|] == c && d == a[|c|..] + b && a[|c|] == d[0]
  {
    if |a| <= |c| {
      assert a == (a + b)[..|a|] == (c + d)[..|a|] == c[..|a|];
      assert b == (a + b)[|a|..] == (c + d)[|a|..] == c[|a|..] + d;
    } else {
      assert c == (c + d)[..|c|] == (a + b)[..|c|] == a[..|c|];
      assert d == (c + d)[|c|..] == (a + b)[|c|..] == a[|c|..] + b;
    }
  }

  /** What is left of a chunk behind the search. */
  lemma Leftover(buf: seq<Byte>, p: nat, pktsize: int)
    requires p <= |buf| && PktSize(pktsize)
    ensures Frame(buf, p, pktsize).at <= |buf| && Part(buf[Frame(buf, p, pktsize).at..], pktsize)
  {
    hide Frame;
  }

  lemma NormalPart(part: seq<Byte>, pktsize: int)
    requires Part(part, pktsize)
    ensures Carry(Normal(part), pktsize)
  {
  }

  /** A chunk that starts at a packet boundary, or in garbage. */
  lemma FreshChunk(buf: seq<Byte>, s: Stream, pktsize: int, more: seq<Byte>) returns (part': seq<Byte>, s': Stream)
    requires StreamOk(s, pktsize) && buf + more == Flat(s)
    ensures StreamOk(s', pktsize) && s'.tail == s.tail && Part(part', pktsize)
    ensures var r := Filter([], buf, pktsize);
            && r.packets + PassedOn(s'.packets, pktsize) == PassedOn(s.packets, pktsize)
            && r.carry == Normal(part') && part' + more == Flat(s') && (part' != [] ==> s'.garbage == [])
  {
    hide Frame, Sync, PassedOn, Flat, Normal, Part;
    assert buf[0..] == buf;
    s' := FrameStream(buf, 0, s, pktsize, more);
    Leftover(buf, 0, pktsize);
    var found := Frame(buf, 0, pktsize);
    part' := buf[found.at..];
    assert [] + found.packets == found.packets;
  }

  lemma NormalJoin(part: seq<Byte>, buf: seq<Byte>, j: nat, packet: seq<Byte>)
    requires part != [] && j <= |buf| && |part| + j >= TS_SIZE && packet == (part + buf)[..|part| + j]
    ensures (Normal(part) + buf[..j])[..TS_SIZE] == Normal(packet[..TS_SIZE])
  {
  }

  /** A chunk that completes the packet carried over. */
  lemma CompletingChunk(part: seq<Byte>, buf: seq<Byte>, s: Stream, pktsize: int, more: seq<Byte>) returns (part': seq<Byte>, s': Stream)
    requires StreamOk(s, pktsize) && Part(part, pktsize) && part != [] && s.garbage == []
    requires part + (buf + more) == Flat(s) && |part| + |buf| >= pktsize
    ensures StreamOk(s', pktsize) && s'.tail == s.tail && Part(part', pktsize) && Carry(Normal(part), pktsize)
    ensures var r := Filter(Normal(part), buf, pktsize);
            && r.packets + PassedOn(s'.packets, pktsize) == PassedOn(s.packets, pktsize)
            && r.carry == Normal(part') && part' + more == Flat(s') && (part' != [] ==> s'.garbage == [])
  {
    hide Frame, Sync, PassedOn, Flat, Concat, Normal;
    var j := pktsize - |part|;
    NormalPart(part, pktsize);
    Associative(part, buf, more);
    NoGarbage(s);
    var s1 := WholePacket(part + buf, more, s, pktsize);
    assert (part + buf)[pktsize..] == buf[j..];
    s' := FrameStream(buf, j, s1, pktsize, more);
    Leftover(buf, j, pktsize);
    var found := Frame(buf, j, pktsize);
    part' := buf[found.at..];
    NormalJoin(part, buf, j, s.packets[0]);
    OneMore(s.packets, s'.packets, found.packets, pktsize);
  }

  /** A chunk that does not complete it. */
  lemma WaitingChunk(part: seq<Byte>, buf: seq<Byte>, pktsize: int)
    requires PktSize(pktsize) && Part(part, pktsize) && part != [] && |part| + |buf| < pktsize
    ensures Carry(Normal(part), pktsize) && Part(part + buf, pktsize)
    ensures Filter(Normal(part), buf, pktsize) == Out(Normal(part + buf), [])
  {
    hide Frame, Sync, Filter, Carry, Normal;
    NormalPart(part, pktsize);
    assert (part + buf)[0] == part[0];
    NormalMore(part, buf);
    FilterShort(Normal(part), buf, pktsize);
  }

  lemma NormalMore(part: seq<Byte>, buf: seq<Byte>)
    requires part != []
    ensures Normal(part) + buf == Normal(part + buf)
  {
  }

  lemma FilterShort(carry: seq<Byte>, buf: seq<Byte>, pktsize: int)
    requires PktSize(pktsize) && Carry(carry, pktsize) && carry != [] && |carry| + |buf| < pktsize
    ensures Filter(carry, buf, pktsize) == Out(carry + buf, [])
  {
    hide Frame;
  }

  /** One call, with the bytes `part` of a packet carried over. */
  lemma OneChunk(part: seq<Byte>, buf: seq<Byte>, s: Stream, pktsize: int, more: seq<Byte>) returns (part': seq<Byte>, s': Stream)
    requires StreamOk(s, pktsize) && Part(part, pktsize) && part + (buf + more) == Flat(s) && (part != [] ==> s.garbage == [])
    ensures StreamOk(s', pktsize) && s'.tail == s.tail && Part(part', pktsize)
    ensures Carry(Normal(part), pktsize)
    ensures var r := Filter(Normal(part), buf, pktsize);
            && r.packets + PassedOn(s'.packets, pktsize) == PassedOn(s.packets, pktsize)
            && r.carry == Normal(part') && part' + more == Flat(s') && (part' != [] ==> s'.garbage == [])
  {
    hide Frame, Sync, PassedOn, Flat, Concat, Filter, Part, Carry;
    NormalPart(part, pktsize);
    if part == [] {
      assert part + (buf + more) == buf + more;
      part', s' := FreshChunk(buf, s, pktsize, more);
    } else if |part| + |buf| >= pktsize {
      part', s' := CompletingChunk(part, buf, s, pktsize, more);
    } else {
      part', s' := part + buf, s;
      WaitingChunk(part, buf, pktsize);
      Associative(part, buf, more);
      assert [] + PassedOn(s.packets, pktsize) == PassedOn(s.packets, pktsize);
    }
  }

  function FilterAll(carry: seq<Byte>, chunks: seq<seq<Byte>>, pktsize: int): (r: Out)
    requires PktSize(pktsize) && Carry(carry, pktsize)
    ensures Carry(r.carry, pktsize)
    decreases |chunks|
  {
    if chunks == [] then Out(carry, []) else
      var first := Filter(carry, chunks[0], pktsize);
      var rest := FilterAll(first.carry, chunks[1..], pktsize);
      Out(rest.carry, first.packets + rest.packets)
  }

  /** The packets of a stream come out the same, whatever the chunks. */
  lemma {:induction false} AnyChunks(part: seq<Byte>, chunks: seq<seq<Byte>>, s: Stream, pktsize: int)
    requires StreamOk(s, pktsize) && Part(part, pktsize) && part + Concat(chunks) == Flat(s) && (part != [] ==> s.garbage == [])
    ensures Carry(Normal(part), pktsize)
    ensures FilterAll(Normal(part), chunks, pktsize) == Out(Normal(s.tail), PassedOn(s.packets, pktsize))
    decreases |chunks|
  {
    hide Filter, Sync;
    if chunks == [] {
      AllGone(part, s, pktsize);
    } else {
      var more := Concat(chunks[1..]);
      assert Concat(chunks) == chunks[0] + more;
      var part', s' := OneChunk(part, chunks[0], s, pktsize, more);
      AnyChunks(part', chunks[1..], s', pktsize);
    }
  }

  lemma AllGone(part: seq<Byte>, s: Stream, pktsize: int)
    requires StreamOk(s, pktsize) && Part(part, pktsize) && part + Concat([]) == Flat(s) && (part != [] ==> s.garbage == [])
    ensures s.packets == [] && part == s.tail
  {
    hide Sync;
    StartsWithSync(s, pktsize);
    assert part + Concat<Byte>([]) == part;
    assert |part| == |s.garbage| + |Concat(s.packets)| + |s.tail|;
    if s.packets == [] { assert Concat(s.packets) + s.tail == s.tail; }
  }

  /** From a demux that carries nothing over. */
  lemma ChunkIndependence(chunks: seq<seq<Byte>>, s: Stream, pktsize: int)
    requires StreamOk(s, pktsize) && Concat(chunks) == Flat(s)
    ensures FilterAll([], chunks, pktsize) == Out(Normal(s.tail), PassedOn(s.packets, pktsize))
  {
    assert [] + Concat(chunks) == Concat(chunks);
    AnyChunks([], chunks, s, pktsize);
  }

  lemma FilterAllFirst(carry: seq<Byte>, chunks: seq<seq<Byte>>, pktsize: int)
    requires PktSize(pktsize) && Carry(carry, pktsize)
    ensures chunks == [] ==> FilterAll(carry, chunks, pktsize) == Out(carry, [])
    ensures chunks != [] ==>
              var first := Filter(carry, chunks[0], pktsize);
              var rest := FilterAll(first.carry, chunks[1..], pktsize);
              FilterAll(carry, chunks, pktsize) == Out(rest.carry, first.packets + rest.packets)
  {
  }

  /** The same on the object: a new demux is given the chunks one after the other. */
  method PlayBack(chunks: seq<seq<Byte>>, s: Stream, pktsize: int) returns (demux: DvbDemux)
    requires StreamOk(s, pktsize) && Concat(chunks) == Flat(s)
    ensures demux.Valid(pktsize) && demux.output == PassedOn(s.packets, pktsize)
    ensures demux.tsbuf[..demux.tsbufp] == Normal(s.tail)
  {
    hide Filter, FilterAll, Flat, StreamOk, PassedOn, Normal;
    demux := new DvbDemux();
    ChunkIndependence(chunks, s, pktsize);
    PktSizeOk(s, pktsize);
    ghost var all := FilterAll([], chunks, pktsize);
    assert chunks[0..] == chunks && demux.tsbuf[..0] == [];
    for i := 0 to |chunks|
      invariant demux.Valid(pktsize) && fresh(demux) && fresh(demux.tsbuf)
      invariant FilterAll(demux.tsbuf[..demux.tsbufp], chunks[i..], pktsize).carry == all.carry
      invariant demux.output + FilterAll(demux.tsbuf[..demux.tsbufp], chunks[i..], pktsize).packets == all.packets
    {
      ghost var carry, out := demux.tsbuf[..demux.tsbufp], demux.output;
      FilterAllFirst(carry, chunks[i..], pktsize);
      assert chunks[i..][1..] == chunks[i + 1..];
      demux.Swfilter(chunks[i], pktsize);
      Associative(out, Filter(carry, chunks[i], pktsize).packets,
                  FilterAll(demux.tsbuf[..demux.tsbufp], chunks[i + 1..], pktsize).packets);
    }
    FilterAllFirst(demux.tsbuf[..demux.tsbufp], chunks[|chunks|..], pktsize);
    assert demux.output + [] == demux.output;
  }

  lemma PktSizeOk(s: Stream, pktsize: int)
    requires StreamOk(s, pktsize)
    ensures PktSize(pktsize)
  {
  }
}
