/**
 * What the link layer guarantees as a whole: when a read finds every fragment it needs, and that a
 * message written by io_write comes out of io_read.
 */
module CaLinkProofs {
  import opened Bytes
  import opened Ringbuffer
  import opened CaLink

  // ---------------------------------------------------------------------------------------------
  // Reads that run off the end of a queue
  // ---------------------------------------------------------------------------------------------

  /** The read finds something, but not the last fragment of the message in front: "ended before last_fragment". */
  ghost predicate RunsOff(vs: seq<SlotQueue>, start: nat)
    requires start < |vs|
  {
    var choice := Scan(vs, start, start, |vs|, -1);
    choice.found && choice.slot < |vs| && Incomplete(vs[choice.slot])
  }

  predicate Waits(v: SlotQueue) {
    v.Holds? && v.q != []
  }

  /** The message in front has not all arrived. */
  predicate Incomplete(v: SlotQueue) {
    Waits(v) && !HasLast(v.q, Connection(v.q[0]))
  }

  predicate HasMessage(v: SlotQueue, c: Byte) {
    v.Holds? && HasLast(v.q, c)
  }

  /** The slots in the order in which a read looks at them. */
  function InOrder(vs: seq<SlotQueue>, start: nat): (os: seq<SlotQueue>)
    requires start < |vs|
    ensures |os| == |vs|
  {
    vs[start..] + vs[..start]
  }

  /** `j` is the first slot that holds a fragment; without a buffer the search ends. */
  predicate FirstWaiting(os: seq<SlotQueue>, j: int) {
    0 <= j < |os| && Waits(os[j]) && forall m :: 0 <= m < j ==> !os[m].NoBuffer? && !Waits(os[m])
  }

  /** `k` is the first slot from `i` on with a complete message of `c`. */
  predicate FirstMessage(os: seq<SlotQueue>, c: Byte, i: int, k: int) {
    0 <= i <= k < |os| && HasMessage(os[k], c) && forall m :: i <= m < k ==> !os[m].NoBuffer? && !HasMessage(os[m], c)
  }


  lemma SlotAt(vs: seq<SlotQueue>, start: nat, i: nat)
    requires start < |vs| && i < |vs|
    ensures vs[(start + i) % |vs|] == InOrder(vs, start)[i]
    ensures ((start + i) % |vs| + 1) % |vs| == (start + (i + 1)) % |vs|
  {
    ModIsWrap(start + i, |vs|);
    ModIsWrap(start + (i + 1), |vs|);
    ModIsWrap((start + i) % |vs| + 1, |vs|);
  }

  /** Where the search ends, counted from the slot it starts on; -1 if it finds nothing. */
  function Look(os: seq<SlotQueue>, i: nat, connection: int): (k: int)
    requires i <= |os|
    ensures k == -1 || i <= k < |os|
    decreases |os| - i
  {
    if i == |os| then -1 else
      match os[i]
      case Stopped => Look(os, i + 1, connection)
      case NoBuffer => -1
      case Holds(q) =>
        if Complete(q, Target(connection, q)) then i else Look(os, i + 1, Target(connection, q))
  }

  lemma {:induction false} ScanIsLook(vs: seq<SlotQueue>, start: nat, i: nat, connection: int)
    requires start < |vs| && i <= |vs|
    ensures var choice := Scan(vs, start, (start + i) % |vs|, |vs| - i, connection);
            var k := Look(InOrder(vs, start), i, connection);
            && (choice.found <==> k != -1)
            && (choice.found ==> choice.slot < |vs| && vs[choice.slot] == InOrder(vs, start)[k]
                                 && choice.slot == (start + k) % |vs| && choice.next == (start + (k + 1)) % |vs|)
    decreases |vs| - i
  {
    hide InOrder, Scan, Complete, Target;
    ScanStep(vs, start, (start + i) % |vs|, |vs| - i, connection);
    if i < |vs| {
      SlotAt(vs, start, i);
      match InOrder(vs, start)[i]
      case Stopped => ScanIsLook(vs, start, i + 1, connection);
      case NoBuffer =>
      case Holds(q) => ScanIsLook(vs, start, i + 1, Target(connection, q));
    }
  }

  /** With the connection known, the search stops at the first slot that has a message of it. */
  lemma {:induction false} LookFor(os: seq<SlotQueue>, i: nat, c: Byte)
    requires i <= |os|
    ensures var k := Look(os, i, c);
            if k != -1 then FirstMessage(os, c, i, k) else forall k' :: !FirstMessage(os, c, i, k')
    decreases |os| - i
  {
    hide HasLast;
    if i < |os| && !os[i].NoBuffer? && !HasMessage(os[i], c) {
      LookFor(os, i + 1, c);
      assert forall k :: FirstMessage(os, c, i, k) ==> FirstMessage(os, c, i + 1, k);
    }
  }

  /** The connection in front of the first slot that holds a fragment is complete on slot `k` first. */
  predicate LeadsTo(os: seq<SlotQueue>, j: int, k: int) {
    FirstWaiting(os, j) && FirstMessage(os, Connection(os[j].q[0]), j, k)
  }

  /** The first fragment met decides which connection is looked for. */
  lemma {:induction false} LookFromStart(os: seq<SlotQueue>, i: nat) returns (j: int)
    requires i <= |os|
    requires forall m :: 0 <= m < i ==> !os[m].NoBuffer? && !Waits(os[m])
    ensures var k := Look(os, i, -1);
            if k != -1 then LeadsTo(os, j, k) else forall j', k' :: !LeadsTo(os, j', k')
    decreases |os| - i
  {
    hide HasLast, FirstMessage;
    j := i;
    if i < |os| {
      if Waits(os[i]) {
        LookFor(os, i, Connection(os[i].q[0]));
      } else if !os[i].NoBuffer? {
        NoMessage(os[i]);
        j := LookFromStart(os, i + 1);
      }
    }
  }

  lemma NoMessage(v: SlotQueue)
    requires !Waits(v)
    ensures v.Holds? ==> Target(-1, v.q) == -1 && !Complete(v.q, -1)
  {
  }

  lemma LeadsToOne(os: seq<SlotQueue>, j: int, k: int, j': int, k': int)
    requires LeadsTo(os, j, k) && LeadsTo(os, j', k')
    ensures j == j' && k == k'
  {
    hide HasMessage;
  }

  /**
   * What a read settles on: the slots are looked at in turn from `start` on; the first fragment met
   * decides the connection, and the first slot from there on with a complete message of it is read.
   * The next read starts behind that slot.
   */
  lemma ChosenExactlyWhen(vs: seq<SlotQueue>, start: nat)
    requires start < |vs|
    ensures var choice, os := Scan(vs, start, start, |vs|, -1), InOrder(vs, start);
            && (choice.found <==> exists j, k :: LeadsTo(os, j, k))
            && forall j, k :: LeadsTo(os, j, k) ==> choice.slot == (start + k) % |vs| && choice.next == (start + (k + 1)) % |vs|
  {
    hide InOrder, Scan, Look, LeadsTo;
    var os := InOrder(vs, start);
    assert (start + 0) % |vs| == start;
    ScanIsLook(vs, start, 0, -1);
    var j0 := LookFromStart(os, 0);
    var k0 := Look(os, 0, -1);
    forall j, k | LeadsTo(os, j, k) ensures k0 == k { LeadsToOne(os, j, k, j0, k0); }
  }

  /** That is a later slot, and there the message is behind an incomplete one of another connection. */
  predicate Astray(os: seq<SlotQueue>, j: int, k: int) {
    LeadsTo(os, j, k) && j < k && Incomplete(os[k])
  }

  /**
   * A read runs off the end exactly when the slots, in the order it looks at them, have led it
   * astray: what it looks for on the slot it settles on is not what that slot has in front.
   */
  lemma RunsOffExactlyWhen(vs: seq<SlotQueue>, start: nat)
    requires start < |vs|
    ensures RunsOff(vs, start) <==> exists j, k :: Astray(InOrder(vs, start), j, k)
  {
    hide InOrder, Scan, Look, LeadsTo;
    var os := InOrder(vs, start);
    assert (start + 0) % |vs| == start;
    ScanIsLook(vs, start, 0, -1);
    var j0 := LookFromStart(os, 0);
    var k0 := Look(os, 0, -1);
    if k0 != -1 {
      NotAtOnce(os, j0, k0);
      assert Incomplete(os[k0]) ==> Astray(os, j0, k0);
      if j, k :| Astray(os, j, k) { LeadsToOne(os, j, k, j0, k0); }
    }
  }

  lemma NotAtOnce(os: seq<SlotQueue>, j: int, k: int)
    requires LeadsTo(os, j, k)
    ensures Incomplete(os[k]) ==> j < k
  {
  }

  /** One slot that has to be searched on for, and one it is then misread on. */
  function Misleading(n: nat): (vs: seq<SlotQueue>)
    requires n >= 2
    ensures |vs| == n
  {
    [Holds([MakeFragment(5, true, [1])]), Holds([MakeFragment(7, true, [2]), MakeFragment(5, false, [3])])]
    + seq(n - 2, i => Stopped)
  }

  lemma MisleadingRunsOff(n: nat)
    requires n >= 2
    ensures RunsOff(Misleading(n), 0)
  {
    var vs := Misleading(n);
    var os := InOrder(vs, 0);
    assert os == vs;
    assert !HasLast(os[0].q, 5) && !HasLast(os[1].q, 7);
    assert Connection(os[1].q[1]) == 5 && IsLast(os[1].q[1]);
    assert Astray(os, 0, 1);
    RunsOffExactlyWhen(vs, 0);
  }

  /** The hardware decides: with one slot no read ever runs off the end, with more some do. */
  lemma NeverRunsOffExactlyWithOneSlot(n: nat)
    requires n > 0
    ensures (forall vs: seq<SlotQueue>, start: nat :: |vs| == n && start < n ==> !RunsOff(vs, start)) <==> n == 1
  {
    if n == 1 {
      forall vs: seq<SlotQueue>, start: nat | |vs| == n && start < n ensures !RunsOff(vs, start) {
        RunsOffExactlyWhen(vs, start);
      }
    } else {
      MisleadingRunsOff(n);
    }
  }

  /** With one slot, a read finds something exactly when the message in front is complete. */
  lemma OneSlotReadsExactlyWhen(v: SlotQueue)
    ensures Scan([v], 0, 0, 1, -1).found <==> Waits(v) && !Incomplete(v)
  {
    var vs := [v];
    assert Scan(vs, 0, (0 + 1) % |vs|, 0, -1).found == false;
  }

  // ---------------------------------------------------------------------------------------------
  // From io_write to io_read
  // ---------------------------------------------------------------------------------------------

  /** Every own fragment is followed by fragments of other connections. */
  function Woven(own: seq<Fragment>, others: seq<seq<Fragment>>): seq<Fragment>
    requires |own| == |others|
  {
    if own == [] then [] else [own[0]] + others[0] + Woven(own[1..], others[1..])
  }

  predicate NoneOf(q: seq<Fragment>, c: Byte) {
    forall i :: 0 <= i < |q| ==> Connection(q[i]) != c
  }

  predicate AllOf(q: seq<Fragment>, c: Byte) {
    forall i :: 0 <= i < |q| ==> Connection(q[i]) == c
  }

  lemma {:induction false} OfSplit(a: seq<Fragment>, b: seq<Fragment>, c: Byte)
    ensures Of(a + b, c) == Of(a, c) + Of(b, c) && NotOf(a + b, c) == NotOf(a, c) + NotOf(b, c)
  {
    if a == [] {
      assert a + b == b;
    } else {
      hide Of, NotOf;
      OfSplit(a[1..], b, c);
      assert a == [a[0]] + a[1..];
      assert a + b == [a[0]] + (a[1..] + b);
      OfFirst(a[0], a[1..], c);
      OfFirst(a[0], a[1..] + b, c);
      Associative(Of([a[0]], c), Of(a[1..], c), Of(b, c));
      Associative(NotOf([a[0]], c), NotOf(a[1..], c), NotOf(b, c));
    }
  }

  lemma OfFirst(f: Fragment, q: seq<Fragment>, c: Byte)
    ensures Of([f] + q, c) == Of([f], c) + Of(q, c) && NotOf([f] + q, c) == NotOf([f], c) + NotOf(q, c)
  {
    assert ([f] + q)[1..] == q && [f][1..] == [];
  }

  lemma {:induction false} OfOthers(q: seq<Fragment>, c: Byte)
    requires NoneOf(q, c)
    ensures Of(q, c) == [] && NotOf(q, c) == q
  {
    if q != [] { OfOthers(q[1..], c); }
  }

  lemma {:induction false} OthersLeft(q: seq<Fragment>, c: Byte)
    requires Of(q, c) == []
    ensures NotOf(q, c) == q
  {
    if q != [] { OthersLeft(q[1..], c); }
  }

  lemma OfOne(f: Fragment, c: Byte)
    requires Connection(f) == c
    ensures Of([f], c) == [f] && NotOf([f], c) == []
  {
    assert [f][1..] == [];
  }

  lemma {:induction false} OfWoven(own: seq<Fragment>, others: seq<seq<Fragment>>, c: Byte)
    requires |own| == |others| && AllOf(own, c)
    requires forall i :: 0 <= i < |others| ==> NoneOf(others[i], c)
    ensures Of(Woven(own, others), c) == own && NotOf(Woven(own, others), c) == Concat(others)
  {
    if own != [] {
      hide Of, NotOf, Woven, Concat;
      var front, rest := [own[0]] + others[0], Woven(own[1..], others[1..]);
      OfWoven(own[1..], others[1..], c);
      OfSplit(front, rest, c);
      OfSplit([own[0]], others[0], c);
      OfOne(own[0], c);
      OfOthers(others[0], c);
      WovenFirst(own, others);
      assert own == [own[0]] + own[1..];
      assert NotOf(front, c) == others[0];
      assert Of(front, c) == [own[0]];
    } else {
      assert Woven(own, others) == [];
    }
  }

  lemma WovenFirst(own: seq<Fragment>, others: seq<seq<Fragment>>)
    requires |own| == |others| && own != []
    ensures Woven(own, others) == ([own[0]] + others[0]) + Woven(own[1..], others[1..])
    ensures Concat(others) == others[0] + Concat(others[1..])
  {
  }

  lemma {:induction false} FragmentsAreOf(c: Byte, msg: seq<Byte>, chunk: nat)
    requires chunk > 0
    ensures AllOf(Fragments(c, msg, chunk), c)
  {
    if |msg| > chunk { FragmentsAreOf(c, msg[chunk..], chunk); }
  }

  /** The fragments a read takes out of the queue: those of `c` up to and with its first last one. */
  function Taken(q: seq<Fragment>, c: Byte): seq<Fragment> {
    if q == [] then []
    else if Connection(q[0]) != c then Taken(q[1..], c)
    else if IsLast(q[0]) then [q[0]]
    else [q[0]] + Taken(q[1..], c)
  }

  /** What a read takes and what it leaves are what was there, connection by connection and in order. */
  lemma {:induction false} TakenAndRest(q: seq<Fragment>, c: Byte, d: Byte)
    ensures Of(q, d) == Of(Taken(q, c), d) + Of(Rest(q, c), d)
  {
    if q != [] {
      var f, t := q[0], q[1..];
      assert q == [f] + t;
      hide Of;
      OfFirst(f, t, d);
      NoneLeft(d);
      if Connection(f) != c {
        TakenAndRest(t, c, d);
        OfFirst(f, Rest(t, c), d);
        TakenIsOf(t, c);
        if d == c { OfOthers([f], d); } else { OfOthers(Taken(t, c), d); }
      } else if !IsLast(f) {
        TakenAndRest(t, c, d);
        OfFirst(f, Taken(t, c), d);
        Associative(Of([f], d), Of(Taken(t, c), d), Of(Rest(t, c), d));
      }
    }
  }

  lemma NoneLeft(d: Byte)
    ensures Of([], d) == []
  {
  }

  lemma {:induction false} TakenIsOf(q: seq<Fragment>, c: Byte)
    ensures AllOf(Taken(q, c), c)
  {
    if q != [] { TakenIsOf(q[1..], c); }
  }

  /** Room a list of fragments takes in a ring. */
  function Stored(fs: seq<Fragment>): nat {
    if fs == [] then 0 else PKTHDRSIZE + |fs[0]| + Stored(fs[1..])
  }

  predicate Storeable(fs: seq<Fragment>) {
    forall i :: 0 <= i < |fs| ==> |fs[i]| < 0x1_0000
  }

  lemma OneFragmentMore(ps: seq<Packet>, f: Fragment)
    requires AllFragments(ps)
    ensures var more := ps + [Packet(false, f)];
            && AllFragments(more) && Ready(more) == Ready(ps) + [f]
            && |Encode(more)| == |Encode(ps)| + PKTHDRSIZE + |f|
  {
    var p := Packet(false, f);
    ReadyOne(p);
    ReadySplit(ps, [p]);
    EncodeSplit(ps, [p]);
    EncodeOne(p);
  }

  /** What read_data does with every fragment that arrives from the CAM. */
  method StoreAll(rx: DvbRingbuffer, fs: seq<Fragment>)
    requires HoldsFragments(rx) && Storeable(fs) && |rx.Bytes()| + Stored(fs) < rx.data.Length
    modifies rx, rx.data
    ensures HoldsFragments(rx) && Queue(rx) == old(Queue(rx)) + fs
  {
    hide Decodable, Decode, Encode, Ready, Unread;
    var i := 0;
    ghost var q0 := Queue(rx);
    assert fs[0..] == fs && q0 + fs[..0] == q0;
    while i < |fs|
      invariant 0 <= i <= |fs| && HoldsFragments(rx)
      invariant Queue(rx) == q0 + fs[..i]
      invariant |rx.Bytes()| + Stored(fs[i..]) < rx.data.Length
    {
      assert fs[i..][1..] == fs[i + 1..] && fs[..i + 1] == fs[..i] + [fs[i]];
      Associative(q0, fs[..i], [fs[i]]);
      OneFragmentMore(rx.Packets(), fs[i]);
      EncodeDecode(rx.Bytes());
      var n := rx.PktWrite(fs[i]);
      EncodeDecode(rx.Bytes());
      i := i + 1;
    }
    assert fs[..i] == fs;
  }

  /**
   * A message written through io_write, its fragments stored in the ring of the one slot with
   * fragments of other connections behind them, comes out of io_read with its slot and connection
   * in front, cut to what the caller has room for; the other fragments stay, in order.
   */
  method PlayBack(c: Byte, msg: seq<Byte>, linkBufSize: int, others: seq<seq<Fragment>>, data: array<Byte>, count: nat)
    returns (rx: DvbRingbuffer, written: int, status: int, buf: seq<Byte>)
    requires msg != [] && linkBufSize >= 3 && count >= 2
    requires |others| == |Outgoing(c, msg, linkBufSize)| && forall i :: 0 <= i < |others| ==> NoneOf(others[i], c)
    requires var q := Woven(Outgoing(c, msg, linkBufSize), others); Storeable(q) && Stored(q) < data.Length
    modifies data
    ensures fresh(rx) && rx.data == data && HoldsFragments(rx)
    ensures written == |msg| + 2
    ensures status == |buf| && buf == [0, c] + msg[..if count - 2 < |msg| then count - 2 else |msg|]
    ensures Queue(rx) == Concat(others)
  {
    hide Decodable, Decode, Encode, Ready, Unread, Of, NotOf, HasLast, Message, Rest, Scan, Fragments, FitTheLink;
    var own;
    written, own := IoWrite([0, c] + msg, [true], [linkBufSize], |others|, -EIO);
    assert ([0, c] + msg)[2..] == msg;
    ghost var chunk := ChunkSize(linkBufSize);
    FragmentsAreOf(c, msg, chunk);
    OfWoven(own, others, c);
    ghost var q := Woven(own, others);
    rx := new DvbRingbuffer(data);
    NoPackets();
    StoreAll(rx, Woven(own, others));
    assert Queue(rx) == q;
    RoundTrip(q, c, msg, chunk, []);
    WovenFront(c, msg, chunk, others);
    status, buf := ReadFront(rx, q, c, msg, count);
    OthersLeft(Rest(q, c), c);
  }

  /** A read on a slot with the message in front. */
  method ReadFront(rx: DvbRingbuffer, ghost q: seq<Fragment>, ghost c: Byte, ghost msg: seq<Byte>, count: nat)
    returns (status: int, buf: seq<Byte>)
    requires HoldsFragments(rx) && Queue(rx) == q != [] && Connection(q[0]) == c && count >= 2
    requires HasLast(q, c) && Message(q, c) == msg
    modifies rx, rx.data
    ensures HoldsFragments(rx) && Queue(rx) == Rest(q, c)
    ensures status == |buf| && buf == [0, c] + msg[..if count - 2 < |msg| then count - 2 else |msg|]
  {
    hide Decodable, Decode, Encode, Ready, HasLast, Message, Rest, Scan;
    var slots := [Slot(true, rx)];
    ghost var vs, after := [Holds(q)], [];
    assert Shows(slots, vs) by { assert vs[0] == View(slots[0]); }
    OneSlotReadsExactlyWhen(Holds(q));
    var next, bug;
    status, buf, next, bug, after := IoRead(slots, 0, count, vs);
    assert SlotOk(slots[0]) && after[0] == View(slots[0]);
  }

  lemma WovenFront(c: Byte, msg: seq<Byte>, chunk: nat, others: seq<seq<Fragment>>)
    requires chunk > 0 && msg != [] && |others| == |Fragments(c, msg, chunk)|
    ensures var q := Woven(Fragments(c, msg, chunk), others); q != [] && Connection(q[0]) == c
  {
    hide MakeFragment;
  }

  lemma NoPackets()
    ensures Ready([]) == []
  {
  }
}
