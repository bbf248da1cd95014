/**
 * How the search of the framer goes on behind a chunk border. It steps back one packet from a sync
 * byte, or from the end of the chunk, that it reached over garbage, and it looks at bytes of its own
 * chunk only.
 */
module FramerBorders {
  import opened Bytes
  import opened Framer

  // ---------------------------------------------------------------------------------------------
  // The same bytes further on in a chunk
  // ---------------------------------------------------------------------------------------------

  lemma {:induction false} FirstSyncShift(a: seq<Byte>, b: seq<Byte>, p: nat, pktsize: int)
    requires p <= |b|
    ensures FirstSync(a + b, |a| + p, pktsize) == |a| + FirstSync(b, p, pktsize)
    decreases |b| - p
  {
    if p < |b| {
      assert (a + b)[|a| + p] == b[p];
      if !Sync(b[p], pktsize) { FirstSyncShift(a, b, p + 1, pktsize); }
    }
  }

  /** From a sync byte, from the end, or a packet further on, the step back stays where it is. */
  lemma NextPacketShift(a: seq<Byte>, b: seq<Byte>, p: nat, pktsize: int)
    requires p <= |b| && PktSize(pktsize) && (p >= pktsize || FirstSync(b, p, pktsize) == p || FirstSync(b, p, pktsize) >= pktsize)
    ensures NextPacket(a + b, |a| + p, pktsize) == |a| + NextPacket(b, p, pktsize)
  {
    FirstSyncShift(a, b, p, pktsize);
    var f := FirstSync(b, p, pktsize);
    if f >= pktsize { assert (a + b)[|a| + f - pktsize] == b[f - pktsize]; }
  }

  lemma SliceBehind<T>(a: seq<T>, b: seq<T>, i: nat, j: nat)
    requires i <= j <= |b|
    ensures (a + b)[|a| + i..|a| + j] == b[i..j] && (a + b)[|a| + i..] == b[i..]
  {
  }

  function Shifted(r: Found, n: nat): Found {
    Found(r.packets, n + r.at)
  }

  lemma {:induction false} FrameShift(a: seq<Byte>, b: seq<Byte>, p: nat, pktsize: int)
    requires p <= |b| && PktSize(pktsize) && (p >= pktsize || FirstSync(b, p, pktsize) == p || FirstSync(b, p, pktsize) >= pktsize)
    ensures Frame(a + b, |a| + p, pktsize) == Shifted(Frame(b, p, pktsize), |a|)
    decreases |b| - p
  {
    hide Frame, NextPacket, FirstSync, Normal, Sync;
    NextPacketShift(a, b, p, pktsize);
    var n := NextPacket(b, p, pktsize);
    FrameStep(b, p, pktsize);
    FrameStep(a + b, |a| + p, pktsize);
    if |b| - n >= pktsize {
      SliceBehind(a, b, n, n + TS_SIZE);
      FrameShift(a, b, n + pktsize, pktsize);
    }
  }

  /** A whole packet where the search begins is found at once. */
  lemma FrameFirst(buf: seq<Byte>, p: nat, x: seq<Byte>, pktsize: int)
    requires IsPacket(x, pktsize) && p + pktsize <= |buf| && buf[p..p + pktsize] == x
    ensures var r := Frame(buf, p + pktsize, pktsize);
            Frame(buf, p, pktsize) == Found([Normal(x[..TS_SIZE])] + r.packets, r.at)
  {
    hide Frame, Normal;
    assert buf[p] == buf[p..p + pktsize][0];
    assert buf[p..p + TS_SIZE] == buf[p..p + pktsize][..TS_SIZE];
    FrameStep(buf, p, pktsize);
  }

  /** So are whole packets, one after the other; the search goes on where they end. */
  lemma {:induction false} FramePackets(a: seq<Byte>, xs: seq<seq<Byte>>, b: seq<Byte>, pktsize: int)
    requires PktSize(pktsize) && AllPackets(xs, pktsize)
    ensures var buf := a + (Concat(xs) + b);
            var r := Frame(buf, |a| + |Concat(xs)|, pktsize);
            Frame(buf, |a|, pktsize) == Found(PassedOn(xs, pktsize) + r.packets, r.at)
    decreases |xs|
  {
    var buf := a + (Concat(xs) + b);
    hide Frame, Normal, Sync;
    var r := Frame(buf, |a| + |Concat(xs)|, pktsize);
    if xs == [] {
      assert |Concat(xs)| == 0 && [] + r.packets == r.packets;
    } else {
      hide Concat, PassedOn;
      PacketsFirst(a, xs, b, pktsize);
      FrameFirst(buf, |a|, xs[0], pktsize);
      FramePackets(a + xs[0], xs[1..], b, pktsize);
      assert Frame(buf, |a| + pktsize, pktsize) == Found(PassedOn(xs[1..], pktsize) + r.packets, r.at);
      Associative([Normal(xs[0][..TS_SIZE])], PassedOn(xs[1..], pktsize), r.packets);
    }
  }

  lemma PacketsFirst(a: seq<Byte>, xs: seq<seq<Byte>>, b: seq<Byte>, pktsize: int)
    requires AllPackets(xs, pktsize) && xs != []
    ensures var buf := a + (Concat(xs) + b);
            && buf == (a + xs[0]) + (Concat(xs[1..]) + b)
            && |a| + pktsize <= |buf| && buf[|a|..|a| + pktsize] == xs[0]
    ensures |a + xs[0]| == |a| + pktsize && |a + xs[0]| + |Concat(xs[1..])| == |a| + |Concat(xs)|
    ensures PassedOn(xs, pktsize) == [Normal(xs[0][..TS_SIZE])] + PassedOn(xs[1..], pktsize)
  {
    FirstInside(a, xs[0], Concat(xs[1..]), b);
  }

  lemma FirstInside(a: seq<Byte>, x: seq<Byte>, c: seq<Byte>, b: seq<Byte>)
    ensures var buf := a + ((x + c) + b);
            buf == (a + x) + (c + b) && buf[|a|..|a| + |x|] == x
  {
  }

  // ---------------------------------------------------------------------------------------------
  // One chunk or two
  // ---------------------------------------------------------------------------------------------

  lemma OnlyChunk(x: seq<Byte>, pktsize: int)
    requires PktSize(pktsize)
    ensures var r := Frame(x, 0, pktsize);
            FilterAll([], [x], pktsize) == Out(Normal(x[r.at..]), r.packets)
  {
    hide Frame;
    var r := Frame(x, 0, pktsize);
    FilterAllFirst([], [x], pktsize);
    assert [x][1..] == [];
    FilterAllFirst(Normal(x[r.at..]), [], pktsize);
    assert ([] + r.packets) + [] == r.packets;
  }

  lemma BehindPackets(xs: seq<seq<Byte>>, b: seq<Byte>, pktsize: int)
    requires PktSize(pktsize) && AllPackets(xs, pktsize)
    ensures FilterAll([], [Concat(xs), b], pktsize)
            == Out(FilterAll([], [b], pktsize).carry, PassedOn(xs, pktsize) + FilterAll([], [b], pktsize).packets)
  {
    hide Frame, Concat;
    var c := Concat(xs);
    FramePackets([], xs, [], pktsize);
    assert [] + (c + []) == c;
    FrameStep(c, |c|, pktsize);
    var first := Filter([], c, pktsize);
    assert c[|c|..] == [];
    assert [] + (PassedOn(xs, pktsize) + []) == PassedOn(xs, pktsize);
    assert first == Out([], PassedOn(xs, pktsize));
    FilterAllFirst([], [c, b], pktsize);
    assert [c, b][1..] == [b];
  }

  /** A search over garbage, from the end of `a` or behind the rest of a packet, that steps back into `a`. */
  predicate Crosses(a: seq<Byte>, b: seq<Byte>, j: nat, pktsize: int) {
    j <= |b| &&
    var h := FirstSync(b, j, pktsize);
    j < h < pktsize && StepsBack(a + b, |a| + h, pktsize)
  }

  /** A packet could begin one packet before `at`. */
  predicate StepsBack(x: seq<Byte>, at: nat, pktsize: int) {
    pktsize > 0 && pktsize <= at <= |x| && Sync(x[at - pktsize], pktsize)
  }

  /** The packet that is passed on then. */
  function Backward(x: seq<Byte>, at: nat, pktsize: int): seq<Byte>
    requires PktSize(pktsize) && pktsize <= at <= |x|
  {
    Normal(x[at - pktsize..at - pktsize + TS_SIZE])
  }

  /** What the search finds from `b[j]` on with `a` in front, and without. */
  lemma SearchBehind(a: seq<Byte>, b: seq<Byte>, j: nat, pktsize: int)
    requires PktSize(pktsize) && j <= |b|
    ensures var h, buf := FirstSync(b, j, pktsize), a + b;
            var alone := Shifted(Frame(b, j, pktsize), |a|);
            Frame(buf, |a| + j, pktsize)
            == if Crosses(a, b, j, pktsize) then Found([Backward(buf, |a| + h, pktsize)] + alone.packets, alone.at) else alone
  {
    hide Frame, Normal, Sync, FirstSync, NextPacket;
    var h, buf := FirstSync(b, j, pktsize), a + b;
    if h == j || h >= pktsize {
      FrameShift(a, b, j, pktsize);
    } else {
      FromSync(b, j, h, pktsize);
      FrameShift(a, b, h, pktsize);
      LateSync(a, b, j, h, pktsize);
      SameFrame(b, j, h, pktsize);
      FrameStep(buf, |a| + j, pktsize);
      if NextPacket(buf, |a| + j, pktsize) == |a| + h { SameFrame(buf, |a| + j, |a| + h, pktsize); }
    }
  }

  /** Where the search ends behind garbage, in a chunk of its own and behind `a`. */
  lemma LateSync(a: seq<Byte>, b: seq<Byte>, j: nat, h: nat, pktsize: int)
    requires PktSize(pktsize) && j <= |b| && h == FirstSync(b, j, pktsize) && j < h < pktsize
    ensures NextPacket(b, j, pktsize) == h == NextPacket(b, h, pktsize)
    ensures NextPacket(a + b, |a| + h, pktsize) == |a| + h
    ensures NextPacket(a + b, |a| + j, pktsize) == |a| + h - if StepsBack(a + b, |a| + h, pktsize) then pktsize else 0
  {
    hide Sync, FirstSync;
    FirstSyncShift(a, b, j, pktsize);
    FirstSyncShift(a, b, h, pktsize);
    FromSync(b, j, h, pktsize);
  }

  /** From places where the search first ends at the same packet it goes on in the same way. */
  lemma SameFrame(buf: seq<Byte>, p: nat, q: nat, pktsize: int)
    requires p <= |buf| && q <= |buf| && PktSize(pktsize) && NextPacket(buf, p, pktsize) == NextPacket(buf, q, pktsize)
    ensures Frame(buf, p, pktsize) == Frame(buf, q, pktsize)
  {
    hide Frame, NextPacket, Normal;
    FrameStep(buf, p, pktsize);
    FrameStep(buf, q, pktsize);
  }

  /** From the first sync byte on, the search for one ends at once. */
  lemma FromSync(b: seq<Byte>, j: nat, h: nat, pktsize: int)
    requires j <= |b| && h == FirstSync(b, j, pktsize)
    ensures FirstSync(b, h, pktsize) == h
  {
  }

  /**
   * Whole packets and whatever follows them, in one chunk or with a border between: the difference
   * shows exactly when the step back crosses the border, and then it is one packet.
   */
  lemma BehindPacketsExactlyWhen(xs: seq<seq<Byte>>, b: seq<Byte>, pktsize: int)
    requires PktSize(pktsize) && AllPackets(xs, pktsize)
    ensures var one, two := FilterAll([], [Concat(xs) + b], pktsize), FilterAll([], [Concat(xs), b], pktsize);
            && (one == two <==> !Crosses(Concat(xs), b, 0, pktsize))
            && one.carry == two.carry
            && |one.packets| == |two.packets| + if Crosses(Concat(xs), b, 0, pktsize) then 1 else 0
  {
    hide Frame, Concat, Normal, Sync, FirstSync, FilterAll, PassedOn, Crosses, Backward;
    var c := Concat(xs);
    var buf := c + b;
    BehindPackets(xs, b, pktsize);
    OnlyChunk(b, pktsize);
    OnlyChunk(buf, pktsize);
    FramePackets([], xs, b, pktsize);
    assert [] + buf == buf;
    SearchBehind(c, b, 0, pktsize);
    SliceBehind(c, b, Frame(b, 0, pktsize).at, |b|);
  }

  /** It does happen: one packet holds a sync byte as far from its end as the next one is late. */
  lemma SomeStepAcross()
    ensures var a := [SYNC] + Zeros(4) + [SYNC] + Zeros(182);
            var b := Zeros(5) + [SYNC] + Zeros(187);
            AllPackets([a], 188) && Crosses(Concat([a]), b, 0, 188)
  {
    var b := Zeros(5) + [SYNC] + Zeros(187);
    ConcatOne([SYNC] + Zeros(4) + [SYNC] + Zeros(182));
    assert forall i :: 0 <= i < 5 ==> b[i] == Zeros(5)[i];
    assert Sync(b[5], 188) && forall i :: 0 <= i < 5 ==> !Sync(b[i], 188);
    assert FirstSync(b, 0, 188) == 5;
  }

  function Zeros(n: nat): (z: seq<Byte>)
    ensures |z| == n && forall i :: 0 <= i < n ==> z[i] == 0
  {
    if n == 0 then [] else [0] + Zeros(n - 1)
  }
}
