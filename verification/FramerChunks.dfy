/**
 * Two chunks, or the same bytes in one: for any bytes and whatever was carried over before, exactly
 * when the border shows in what the framer passes on.
 */
module FramerChunks {
  import opened Bytes
  import opened Framer
  import opened FramerBorders

  // ---------------------------------------------------------------------------------------------
  // Up to the search that the border cuts
  // ---------------------------------------------------------------------------------------------

  /** Where the last search of the chunk begins: the one that finds no sync byte, or no room for a packet. */
  function LastSearch(a: seq<Byte>, p: nat, pktsize: int): (q: nat)
    requires p <= |a| && PktSize(pktsize)
    ensures p <= q <= |a| && Last(a, q, pktsize)
    decreases |a| - p
  {
    var f := FirstSync(a, p, pktsize);
    if f == |a| || |a| - NextPacket(a, p, pktsize) < pktsize then p
    else LastSearch(a, NextPacket(a, p, pktsize) + pktsize, pktsize)
  }

  /** A sync byte in the first chunk is found with the second behind it just the same. */
  lemma {:induction false} SameSync(a: seq<Byte>, b: seq<Byte>, p: nat, pktsize: int)
    requires p <= |a|
    ensures var f := FirstSync(a, p, pktsize);
            FirstSync(a + b, p, pktsize) == if f < |a| then f else |a| + FirstSync(b, 0, pktsize)
    decreases |a| - p
  {
    if p == |a| {
      FirstSyncShift(a, b, 0, pktsize);
    } else {
      assert (a + b)[p] == a[p];
      if !Sync(a[p], pktsize) { SameSync(a, b, p + 1, pktsize); }
    }
  }

  lemma SameNext(a: seq<Byte>, b: seq<Byte>, p: nat, pktsize: int)
    requires p <= |a| && PktSize(pktsize) && FirstSync(a, p, pktsize) < |a|
    ensures NextPacket(a + b, p, pktsize) == NextPacket(a, p, pktsize)
  {
    hide FirstSync;
    SameSync(a, b, p, pktsize);
    var f := FirstSync(a, p, pktsize);
    if f >= pktsize { assert (a + b)[f - pktsize] == a[f - pktsize]; }
  }

  /** The packets found up to there do not depend on what follows. */
  lemma {:induction false} UpToLastSearch(a: seq<Byte>, b: seq<Byte>, p: nat, pktsize: int) returns (found: seq<seq<Byte>>)
    requires p <= |a| && PktSize(pktsize)
    ensures var q := LastSearch(a, p, pktsize);
            && Frame(a, p, pktsize) == Found(found + Frame(a, q, pktsize).packets, Frame(a, q, pktsize).at)
            && Frame(a + b, p, pktsize) == Found(found + Frame(a + b, q, pktsize).packets, Frame(a + b, q, pktsize).at)
    decreases |a| - p
  {
    hide Frame, NextPacket, FirstSync, Normal, Sync;
    var q, n := LastSearch(a, p, pktsize), NextPacket(a, p, pktsize);
    if q == p {
      found := [];
      assert [] + Frame(a, q, pktsize).packets == Frame(a, q, pktsize).packets;
      assert [] + Frame(a + b, q, pktsize).packets == Frame(a + b, q, pktsize).packets;
    } else {
      SameNext(a, b, p, pktsize);
      FrameStep(a, p, pktsize);
      FrameStep(a + b, p, pktsize);
      var x := Normal(a[n..n + TS_SIZE]);
      assert (a + b)[n..n + TS_SIZE] == a[n..n + TS_SIZE];
      var rest := UpToLastSearch(a, b, n + pktsize, pktsize);
      found := [x] + rest;
      Associative([x], rest, Frame(a, q, pktsize).packets);
      Associative([x], rest, Frame(a + b, q, pktsize).packets);
    }
  }

  // ---------------------------------------------------------------------------------------------
  // The search that the border cuts
  // ---------------------------------------------------------------------------------------------

  /** What steps back from the end of garbage, or from the sync byte behind it. */
  function Back(x: seq<Byte>, at: nat, pktsize: int): seq<seq<Byte>>
    requires PktSize(pktsize)
  {
    if StepsBack(x, at, pktsize) then [Backward(x, at, pktsize)] else []
  }

  /** The first chunk ends in garbage: its search steps back from the end, the undivided one from the next sync byte. */
  lemma OverGarbage(a: seq<Byte>, b: seq<Byte>, q: nat, pktsize: int)
    requires PktSize(pktsize) && q < |a| && FirstSync(a, q, pktsize) == |a|
    ensures Frame(a, q, pktsize) == Found(Back(a, |a|, pktsize), |a|)
    ensures var h, x := FirstSync(b, 0, pktsize), a + b;
            var alone := Shifted(Frame(b, 0, pktsize), |a|);
            Frame(x, q, pktsize) == Found(Back(x, |a| + h, pktsize) + alone.packets, alone.at)
  {
    hide Frame, Sync, FirstSync, NextPacket, Normal;
    EndOfGarbage(a, q, pktsize);
    var h, x := FirstSync(b, 0, pktsize), a + b;
    NextOverGarbage(a, b, q, pktsize);
    FromSync(b, 0, h, pktsize);
    FrameShift(a, b, h, pktsize);
    SameFrame(b, 0, h, pktsize);
    StepOrNot(x, q, |a| + h, pktsize);
  }

  /** A search that ends at `at`, or a packet before it. */
  lemma StepOrNot(x: seq<Byte>, q: nat, at: nat, pktsize: int)
    requires PktSize(pktsize) && q <= at <= |x| && NextPacket(x, at, pktsize) == at
    requires NextPacket(x, q, pktsize) == at - (if StepsBack(x, at, pktsize) then pktsize else 0)
    ensures var r := Frame(x, at, pktsize);
            Frame(x, q, pktsize) == Found(Back(x, at, pktsize) + r.packets, r.at)
  {
    hide Frame, Sync, NextPacket, Normal;
    var r := Frame(x, at, pktsize);
    if StepsBack(x, at, pktsize) {
      FrameStep(x, q, pktsize);
    } else {
      SameFrame(x, q, at, pktsize);
      assert [] + r.packets == r.packets;
    }
  }

  lemma EndOfGarbage(a: seq<Byte>, q: nat, pktsize: int)
    requires PktSize(pktsize) && q < |a| && FirstSync(a, q, pktsize) == |a|
    ensures Frame(a, q, pktsize) == Found(Back(a, |a|, pktsize), |a|)
  {
    hide Frame, Normal, Sync;
    FrameStep(a, q, pktsize);
    FrameStep(a, |a|, pktsize);
    assert NextPacket(a, |a|, pktsize) == |a|;
  }

  lemma NextOverGarbage(a: seq<Byte>, b: seq<Byte>, q: nat, pktsize: int)
    requires PktSize(pktsize) && q < |a| && FirstSync(a, q, pktsize) == |a|
    ensures var h, x := FirstSync(b, 0, pktsize), a + b;
            && NextPacket(x, q, pktsize) == |a| + h - (if StepsBack(x, |a| + h, pktsize) then pktsize else 0)
            && NextPacket(x, |a| + h, pktsize) == |a| + h
            && NextPacket(b, 0, pktsize) == h == NextPacket(b, h, pktsize)
  {
    var h := FirstSync(b, 0, pktsize);
    SameSync(a, b, q, pktsize);
    FromSync(b, 0, h, pktsize);
    FirstSyncShift(a, b, h, pktsize);
  }

  // ---------------------------------------------------------------------------------------------
  // When the border matters
  // ---------------------------------------------------------------------------------------------

  /** Bytes that the packet carried over still lacks. */
  function Lacking(carry: seq<Byte>, pktsize: int): nat
    requires PktSize(pktsize) && Carry(carry, pktsize)
  {
    if carry == [] then 0 else pktsize - |carry|
  }

  /**
   * Over a border in garbage the first of two chunks steps back from the border, one chunk from the
   * next sync byte: it makes no difference if neither finds anything, or both find the same packet.
   */
  predicate BorderInGarbage(a: seq<Byte>, b: seq<Byte>, pktsize: int)
    requires PktSize(pktsize)
  {
    var x, h := a + b, FirstSync(b, 0, pktsize);
    var early, late := StepsBack(x, |a|, pktsize), StepsBack(x, |a| + h, pktsize);
    early != late || (early && !SameBytes(x, |a| - pktsize, |a| + h - pktsize))
  }

  /** Two packets that are passed on alike, whatever their first bytes. */
  predicate SameBytes(x: seq<Byte>, i: nat, j: nat)
    requires i + TS_SIZE <= |x| && j + TS_SIZE <= |x|
  {
    x[i + 1..i + TS_SIZE] == x[j + 1..j + TS_SIZE]
  }

  /** `carry` comes from the chunks before `a`, and `b` is the chunk behind it. */
  predicate BorderMatters(carry: seq<Byte>, a: seq<Byte>, b: seq<Byte>, pktsize: int)
    requires PktSize(pktsize) && Carry(carry, pktsize)
  {
    var p := Lacking(carry, pktsize);
    if |a| < p then Crosses(a, b, p - |a|, pktsize)
    else
      SearchCut(a, b, LastSearch(a, p, pktsize), pktsize)
  }

  /** The border cuts the search that begins at `q`, or the packet it has found. */
  predicate SearchCut(a: seq<Byte>, b: seq<Byte>, q: nat, pktsize: int)
    requires PktSize(pktsize) && Last(a, q, pktsize)
  {
    var f := FirstSync(a, q, pktsize);
    if f < |a| then Crosses(a, b, pktsize - (|a| - f), pktsize)
    else if q == |a| then Crosses(a, b, 0, pktsize)
    else BorderInGarbage(a, b, pktsize)
  }

  /** No packet from `q` on that is whole. */
  predicate Last(a: seq<Byte>, q: nat, pktsize: int)
    requires PktSize(pktsize)
  {
    q <= |a| &&
    var f := FirstSync(a, q, pktsize);
    f < |a| ==> NextPacket(a, q, pktsize) == f && |a| - f < pktsize
  }

  /** One chunk after the other. */
  function InTwo(carry: seq<Byte>, a: seq<Byte>, b: seq<Byte>, pktsize: int): Out
    requires PktSize(pktsize) && Carry(carry, pktsize)
  {
    var first := Filter(carry, a, pktsize);
    var second := Filter(first.carry, b, pktsize);
    Out(second.carry, first.packets + second.packets)
  }

  lemma Cancel<T>(front: seq<T>, a: seq<T>, b: seq<T>)
    ensures front + a == front + b <==> a == b
  {
    if front + a == front + b {
      assert a == (front + a)[|front|..] == (front + b)[|front|..] == b;
    }
  }

  lemma CancelEnd<T>(a: seq<T>, b: seq<T>, end: seq<T>)
    ensures a + end == b + end <==> a == b
  {
    if a + end == b + end {
      assert |a| == |b|;
      assert a == (a + end)[..|a|] == (b + end)[..|a|] == b;
    }
  }

  /** The same `front`, and then the search from `b[j]` on, with `a` in front of it or without. */
  lemma BehindBorder(front: seq<seq<Byte>>, a: seq<Byte>, b: seq<Byte>, j: nat, pktsize: int)
    requires PktSize(pktsize) && j <= |b|
    ensures var r1, r2 := Frame(a + b, |a| + j, pktsize), Frame(b, j, pktsize);
            && Normal((a + b)[r1.at..]) == Normal(b[r2.at..])
            && (front + r1.packets == front + r2.packets <==> !Crosses(a, b, j, pktsize))
  {
    hide Frame, Normal, Crosses;
    var r1, r2 := Frame(a + b, |a| + j, pktsize), Frame(b, j, pktsize);
    SearchBehind(a, b, j, pktsize);
    SliceBehind(a, b, r2.at, |b|);
    Cancel(front, r1.packets, r2.packets);
    if Crosses(a, b, j, pktsize) { assert |r1.packets| == |r2.packets| + 1; }
  }

  /** What a chunk does that completes the packet carried over, or finds none. */
  lemma FilterLong(carry: seq<Byte>, x: seq<Byte>, pktsize: int)
    requires PktSize(pktsize) && Carry(carry, pktsize) && |x| >= Lacking(carry, pktsize)
    ensures var j := Lacking(carry, pktsize);
            var r := Frame(x, j, pktsize);
            Filter(carry, x, pktsize) == Out(Normal(x[r.at..]), Completed(carry, x, pktsize) + r.packets)
  {
  }

  /** The packet carried over, once it is whole. */
  function Completed(carry: seq<Byte>, x: seq<Byte>, pktsize: int): seq<seq<Byte>>
    requires PktSize(pktsize) && Carry(carry, pktsize) && |x| >= Lacking(carry, pktsize)
  {
    if carry == [] then [] else [(carry + x[..Lacking(carry, pktsize)])[..TS_SIZE]]
  }

  /** The first chunk does not complete the packet carried over. */
  lemma BorderInCarried(carry: seq<Byte>, a: seq<Byte>, b: seq<Byte>, pktsize: int)
    requires PktSize(pktsize) && Carry(carry, pktsize) && |a| < Lacking(carry, pktsize)
    ensures var one, two := Filter(carry, a + b, pktsize), InTwo(carry, a, b, pktsize);
            one.carry == two.carry && (one == two <==> !Crosses(a, b, Lacking(carry, pktsize) - |a|, pktsize))
  {
    var j := Lacking(carry, pktsize) - |a|;
    FilterShort(carry, a, pktsize);
    Associative(carry, a, b);
    if |b| < j {
      FilterShort(carry, a + b, pktsize);
      FilterShort(carry + a, b, pktsize);
    } else {
      FilterLong(carry, a + b, pktsize);
      FilterLong(carry + a, b, pktsize);
      hide Frame, Normal, Filter;
      assert carry + (a + b)[..j + |a|] == (carry + a) + b[..j];
      var front := Completed(carry, a + b, pktsize);
      assert front == Completed(carry + a, b, pktsize);
      BehindBorder(front, a, b, j, pktsize);
      var r := Frame(b, j, pktsize);
      assert [] + (front + r.packets) == front + r.packets;
    }
  }

  /** The first chunk ends inside a packet it has begun. */
  lemma BorderInBegun(front: seq<seq<Byte>>, a: seq<Byte>, b: seq<Byte>, q: nat, pktsize: int)
    requires PktSize(pktsize) && q <= |a| && FirstSync(a, q, pktsize) < |a|
    requires NextPacket(a, q, pktsize) == FirstSync(a, q, pktsize) && |a| - FirstSync(a, q, pktsize) < pktsize
    ensures var f := FirstSync(a, q, pktsize);
            var r1, r2 := Frame(a + b, q, pktsize), Filter(Normal(a[f..]), b, pktsize);
            && Frame(a, q, pktsize) == Found([], f)
            && Normal((a + b)[r1.at..]) == r2.carry
            && (front + r1.packets == front + r2.packets <==> !Crosses(a, b, pktsize - (|a| - f), pktsize))
  {
    hide FirstSync, Sync, NextPacket;
    var f := FirstSync(a, q, pktsize);
    var j := pktsize - (|a| - f);
    SameNext(a, b, q, pktsize);
    FrameStep(a, q, pktsize);
    FrameStep(a + b, q, pktsize);
    hide Frame;
    BegunCarry(a, f, pktsize);
    if |b| < j {
      FilterShort(Normal(a[f..]), b, pktsize);
      NormalMore(a[f..], b);
      assert (a + b)[f..] == a[f..] + b;
    } else {
      FilterLong(Normal(a[f..]), b, pktsize);
      hide Filter;
      var done := Completed(Normal(a[f..]), b, pktsize);
      BegunPacket(a, b, f, pktsize);
      BehindBorder(front + done, a, b, j, pktsize);
      Associative(front, done, Frame(a + b, |a| + j, pktsize).packets);
      Associative(front, done, Frame(b, j, pktsize).packets);
    }
  }

  lemma BegunCarry(a: seq<Byte>, f: nat, pktsize: int)
    requires PktSize(pktsize) && f < |a| && |a| - f < pktsize
    ensures Carry(Normal(a[f..]), pktsize) && Normal(a[f..]) != [] && Lacking(Normal(a[f..]), pktsize) == pktsize - (|a| - f)
  {
  }

  lemma BegunPacket(a: seq<Byte>, b: seq<Byte>, f: nat, pktsize: int)
    requires PktSize(pktsize) && f < |a| && |a| - f < pktsize && |b| >= pktsize - (|a| - f)
    requires Carry(Normal(a[f..]), pktsize) && Lacking(Normal(a[f..]), pktsize) == pktsize - (|a| - f)
    ensures Completed(Normal(a[f..]), b, pktsize) == [Normal((a + b)[f..f + TS_SIZE])]
  {
    var j := pktsize - (|a| - f);
    NormalMore(a[f..], b[..j]);
    assert (a + b)[f..f + TS_SIZE] == (a[f..] + b[..j])[..TS_SIZE];
    NormalTake(a[f..] + b[..j]);
  }

  lemma NormalTake(y: seq<Byte>)
    requires |y| >= TS_SIZE
    ensures Normal(y)[..TS_SIZE] == Normal(y[..TS_SIZE])
  {
  }

  /** The first chunk ends in garbage. */
  lemma BorderBehindGarbage(front: seq<seq<Byte>>, a: seq<Byte>, b: seq<Byte>, q: nat, pktsize: int)
    requires PktSize(pktsize) && q < |a| && FirstSync(a, q, pktsize) == |a|
    ensures var r0, r1, r2 := Frame(a, q, pktsize), Frame(a + b, q, pktsize), Frame(b, 0, pktsize);
            && r0.at == |a| && Normal((a + b)[r1.at..]) == Normal(b[r2.at..])
            && (front + r1.packets == front + (r0.packets + r2.packets) <==> !BorderInGarbage(a, b, pktsize))
  {
    hide Frame, FirstSync, Sync, Back, StepsBack, SameBytes, Normal;
    OverGarbage(a, b, q, pktsize);
    var x, h, r2 := a + b, FirstSync(b, 0, pktsize), Frame(b, 0, pktsize);
    var early, late := Back(a, |a|, pktsize), Back(x, |a| + h, pktsize);
    SliceBehind(a, b, r2.at, |b|);
    Cancel(front, late + r2.packets, early + r2.packets);
    CancelEnd(late, early, r2.packets);
    SameBack(a, b, |a| + h, pktsize);
  }

  lemma SameBack(a: seq<Byte>, b: seq<Byte>, at: nat, pktsize: int)
    requires PktSize(pktsize) && |a| <= at <= |a + b|
    ensures var x := a + b;
            var early, late := StepsBack(x, |a|, pktsize), StepsBack(x, at, pktsize);
            Back(a, |a|, pktsize) == Back(x, at, pktsize)
            <==> early == late && (early ==> SameBytes(x, |a| - pktsize, at - pktsize))
  {
    hide Sync;
    var x := a + b;
    if |a| >= pktsize {
      assert x[|a| - pktsize] == a[|a| - pktsize];
      assert x[|a| - pktsize..|a| - pktsize + TS_SIZE] == a[|a| - pktsize..|a| - pktsize + TS_SIZE];
      if StepsBack(x, |a|, pktsize) && StepsBack(x, at, pktsize) {
        SameNormal(x, |a| - pktsize, at - pktsize);
      }
    }
  }

  lemma SameNormal(x: seq<Byte>, i: nat, j: nat)
    requires i + TS_SIZE <= |x| && j + TS_SIZE <= |x|
    ensures Normal(x[i..i + TS_SIZE]) == Normal(x[j..j + TS_SIZE]) <==> SameBytes(x, i, j)
  {
    var a, b := Normal(x[i..i + TS_SIZE]), Normal(x[j..j + TS_SIZE]);
    assert a[1..] == x[i + 1..i + TS_SIZE] && b[1..] == x[j + 1..j + TS_SIZE];
    assert a == [SYNC] + a[1..] && b == [SYNC] + b[1..];
  }

  lemma BorderInSearch(front: seq<seq<Byte>>, a: seq<Byte>, b: seq<Byte>, q: nat, pktsize: int)
    requires PktSize(pktsize) && Last(a, q, pktsize)
    ensures var r0, r1 := Frame(a, q, pktsize), Frame(a + b, q, pktsize);
            && Carry(Normal(a[r0.at..]), pktsize)
            && var second := Filter(Normal(a[r0.at..]), b, pktsize);
               && Normal((a + b)[r1.at..]) == second.carry
               && (front + r1.packets == front + (r0.packets + second.packets) <==> !SearchCut(a, b, q, pktsize))
  {
    hide Filter, Frame, FirstSync, Sync, Crosses, NextPacket, Normal;
    var f, r0 := FirstSync(a, q, pktsize), Frame(a, q, pktsize);
    if f < |a| {
      BegunCarry(a, f, pktsize);
      BorderInBegun(front, a, b, q, pktsize);
      var second := Filter(Normal(a[f..]), b, pktsize);
      assert [] + second.packets == second.packets;
    } else {
      AtEnd(a, q, b, pktsize);
      if q == |a| {
        BehindBorder(front, a, b, 0, pktsize);
        var second := Filter([], b, pktsize);
        assert [] + second.packets == second.packets;
      } else {
        BorderBehindGarbage(front, a, b, q, pktsize);
      }
    }
  }

  /** Any bytes, whatever was carried over before, with the border and without. */
  lemma BorderMattersExactlyWhen(carry: seq<Byte>, a: seq<Byte>, b: seq<Byte>, pktsize: int)
    requires PktSize(pktsize) && Carry(carry, pktsize)
    ensures var one, two := Filter(carry, a + b, pktsize), InTwo(carry, a, b, pktsize);
            one.carry == two.carry && (one == two <==> !BorderMatters(carry, a, b, pktsize))
  {
    hide Filter, Frame, Crosses, Normal, SearchCut, LastSearch, Last, Sync;
    var p := Lacking(carry, pktsize);
    if |a| < p {
      BorderInCarried(carry, a, b, pktsize);
    } else {
      var q := LastSearch(a, p, pktsize);
      FilterLong(carry, a, pktsize);
      FilterLong(carry, a + b, pktsize);
      assert (a + b)[..p] == a[..p];
      var head := Completed(carry, a, pktsize);
      assert head == Completed(carry, a + b, pktsize);
      hide Completed;
      var found := UpToLastSearch(a, b, p, pktsize);
      BorderInSearch(head + found, a, b, q, pktsize);
      var r0, r1 := Frame(a, q, pktsize), Frame(a + b, q, pktsize);
      Associative(head, found, r0.packets);
      Associative(head, found, r1.packets);
      Associative(head + found, r0.packets, Filter(Normal(a[r0.at..]), b, pktsize).packets);
    }
  }

  /** Nothing is carried over then. */
  lemma AtEnd(a: seq<Byte>, q: nat, b: seq<Byte>, pktsize: int)
    requires PktSize(pktsize) && q <= |a| && FirstSync(a, q, pktsize) == |a|
    ensures Frame(a, q, pktsize).at == |a| && Normal(a[|a|..]) == []
    ensures q == |a| ==> Frame(a, q, pktsize) == Found([], |a|)
    ensures var r := Frame(b, 0, pktsize); Filter([], b, pktsize) == Out(Normal(b[r.at..]), r.packets)
  {
    hide Sync;
    FilterLong([], b, pktsize);
    var r := Frame(b, 0, pktsize);
    assert [] + r.packets == r.packets;
    if q < |a| { EndOfGarbage(a, q, pktsize); } else { FrameStep(a, q, pktsize); }
  }

  // ---------------------------------------------------------------------------------------------
  // Any number of chunks
  // ---------------------------------------------------------------------------------------------

  lemma {:induction false} FilterAllSplit(carry: seq<Byte>, before: seq<seq<Byte>>, behind: seq<seq<Byte>>, pktsize: int)
    requires PktSize(pktsize) && Carry(carry, pktsize)
    ensures var r := FilterAll(carry, before, pktsize);
            var t := FilterAll(r.carry, behind, pktsize);
            FilterAll(carry, before + behind, pktsize) == Out(t.carry, r.packets + t.packets)
    decreases |before|
  {
    hide Filter, FilterAll, Carry;
    FilterAllFirst(carry, before, pktsize);
    if before == [] {
      var t := FilterAll(carry, behind, pktsize);
      assert before + behind == behind && [] + t.packets == t.packets;
    } else {
      FilterAllFirst(carry, before + behind, pktsize);
      assert (before + behind)[1..] == before[1..] + behind;
      var first := Filter(carry, before[0], pktsize);
      FilterAllSplit(first.carry, before[1..], behind, pktsize);
      var r := FilterAll(first.carry, before[1..], pktsize);
      Associative(first.packets, r.packets, FilterAll(r.carry, behind, pktsize).packets);
    }
  }

  lemma AllInTwo(carry: seq<Byte>, a: seq<Byte>, b: seq<Byte>, pktsize: int)
    requires PktSize(pktsize) && Carry(carry, pktsize)
    ensures FilterAll(carry, [a, b], pktsize) == InTwo(carry, a, b, pktsize)
    ensures FilterAll(carry, [a + b], pktsize) == Filter(carry, a + b, pktsize)
  {
    hide Filter, FilterAll, Carry;
    var first, one := Filter(carry, a, pktsize), Filter(carry, a + b, pktsize);
    var second := Filter(first.carry, b, pktsize);
    FilterAllFirst(carry, [a, b], pktsize);
    FilterAllFirst(first.carry, [b], pktsize);
    FilterAllFirst(second.carry, [], pktsize);
    FilterAllFirst(carry, [a + b], pktsize);
    FilterAllFirst(one.carry, [], pktsize);
    assert [a, b][1..] == [b] && [b][1..] == [] && [a + b][1..] == [];
    assert second.packets + [] == second.packets && one.packets + [] == one.packets;
  }

  /** One border less in any sequence of chunks, and nothing else is any different. */
  lemma OneBorderLess(carry: seq<Byte>, before: seq<seq<Byte>>, a: seq<Byte>, b: seq<Byte>, behind: seq<seq<Byte>>, pktsize: int)
    requires PktSize(pktsize) && Carry(carry, pktsize)
    ensures var c := FilterAll(carry, before, pktsize).carry;
            FilterAll(carry, before + [a + b] + behind, pktsize) == FilterAll(carry, before + [a, b] + behind, pktsize)
            <==> !BorderMatters(c, a, b, pktsize)
  {
    hide Filter, FilterAll, Carry, BorderMatters;
    var r := FilterAll(carry, before, pktsize);
    BorderMattersExactlyWhen(r.carry, a, b, pktsize);
    AllInTwo(r.carry, a, b, pktsize);
    var one, two := Filter(r.carry, a + b, pktsize), InTwo(r.carry, a, b, pktsize);
    hide InTwo;
    FilterAllSplit(carry, before, [a + b], pktsize);
    FilterAllSplit(carry, before, [a, b], pktsize);
    FilterAllSplit(carry, before + [a + b], behind, pktsize);
    FilterAllSplit(carry, before + [a, b], behind, pktsize);
    var t := FilterAll(one.carry, behind, pktsize);
    Cancel(r.packets, one.packets, two.packets);
    CancelEnd(r.packets + one.packets, r.packets + two.packets, t.packets);
  }

  // ---------------------------------------------------------------------------------------------
  // Packets of 188 bytes
  // ---------------------------------------------------------------------------------------------

  /** Packets of 188 bytes that overlap and end in garbage are never the same. */
  lemma NeverSame(x: seq<Byte>, q: nat, c: nat, h: nat)
    requires q <= c && c + h <= |x| && h > 0 && forall i :: q <= i < c + h ==> !Sync(x[i], TS_SIZE)
    requires StepsBack(x, c, TS_SIZE) && StepsBack(x, c + h, TS_SIZE)
    ensures !SameBytes(x, c - TS_SIZE, c + h - TS_SIZE)
  {
    if SameBytes(x, c - TS_SIZE, c + h - TS_SIZE) {
      SyncAgain(x, q, c, h, c + h - TS_SIZE);
    }
  }

  /** A sync byte would come again and again, `h` bytes later each time, until it is in the garbage. */
  lemma {:induction false} SyncAgain(x: seq<Byte>, q: nat, c: nat, h: nat, i: nat)
    requires q <= c && c + h <= |x| && h > 0 && forall k :: q <= k < c + h ==> !Sync(x[k], TS_SIZE)
    requires TS_SIZE <= c && c - TS_SIZE < i < c + h && Sync(x[i], TS_SIZE)
    requires SameBytes(x, c - TS_SIZE, c + h - TS_SIZE)
    ensures false
    decreases c + h - i
  {
    if i < c {
      var s := c - TS_SIZE;
      assert x[i] == x[s + 1..s + TS_SIZE][i - s - 1] == x[s + h + 1..s + h + TS_SIZE][i - s - 1] == x[i + h];
      SyncAgain(x, q, c, h, i + h);
    }
  }

  /** So for them a border in garbage makes no difference exactly when no step back is taken on either side. */
  lemma ShortPacketsInGarbage(a: seq<Byte>, b: seq<Byte>, q: nat)
    requires q < |a| && FirstSync(a, q, TS_SIZE) == |a|
    ensures var h, x := FirstSync(b, 0, TS_SIZE), a + b;
            BorderInGarbage(a, b, TS_SIZE)
            <==> h > 0 && (StepsBack(x, |a|, TS_SIZE) || StepsBack(x, |a| + h, TS_SIZE))
  {
    var h, x := FirstSync(b, 0, TS_SIZE), a + b;
    hide Sync, SameBytes;
    if h == 0 {
      assert |a| + h == |a|;
      if StepsBack(x, |a|, TS_SIZE) { SameAsItself(x, |a| - TS_SIZE); }
    } else if StepsBack(x, |a|, TS_SIZE) && StepsBack(x, |a| + h, TS_SIZE) {
      forall i | q <= i < |a| + h ensures !Sync(x[i], TS_SIZE) {
        assert x[i] == if i < |a| then a[i] else b[i - |a|];
      }
      NeverSame(x, q, |a|, h);
    }
  }

  lemma SameAsItself(x: seq<Byte>, i: nat)
    requires i + TS_SIZE <= |x|
    ensures SameBytes(x, i, i)
  {
  }

  /** It does happen that way too: the first chunk steps back from its end, and one chunk would not. */
  lemma SomeBorderInGarbage()
    ensures var a := [SYNC] + Zeros(4) + [SYNC] + Zeros(187);
            var b := Zeros(3) + [SYNC] + Zeros(187);
            BorderMatters([], a, b, TS_SIZE)
  {
  }
}
