/**
 * The EN 50221 link layer of neumo-dvb-ca-en50221.c (Annex A of EN 50221): io_write cuts a message
 * into fragments, fragments of several connections are stored as packets of a slot's ring, and
 * io_read_condition and io_read put a message together again.
 *
 * A fragment is a connection id, a flag byte whose top bit is clear on the last fragment, and data.
 */
module CaLink {
  import opened Bytes
  import opened Ringbuffer

  const HOST_LINK_BUF_SIZE := 512
  const EIO := 5
  const EWOULDBLOCK := 11

  type Fragment = f: seq<Byte> | 2 <= |f| witness [0, 0]

  function MakeFragment(c: Byte, more: bool, data: seq<Byte>): (f: Fragment)
    ensures Connection(f) == c && IsLast(f) == !more && f[2..] == data
  {
    [c, if more then 0x80 else 0x00] + data
  }

  function Connection(f: Fragment): Byte { f[0] }

  /** (hdr[1] & 0x80) == 0 */
  predicate IsLast(f: Fragment) { f[1] < 0x80 }

  // ---------------------------------------------------------------------------------------------
  // What the two directions do to a queue of fragments
  // ---------------------------------------------------------------------------------------------

  /** Data bytes per fragment for a negotiated link buffer. */
  function ChunkSize(linkBufSize: int): int {
    Min(linkBufSize - 2, HOST_LINK_BUF_SIZE - 2)
  }

  function Fragments(c: Byte, msg: seq<Byte>, chunk: nat): seq<Fragment>
    requires chunk > 0
  {
    if msg == [] then []
    else if |msg| <= chunk then [MakeFragment(c, false, msg)]
    else [MakeFragment(c, true, msg[..chunk])] + Fragments(c, msg[chunk..], chunk)
  }

  /** The fragments of connection `c`, in order. */
  function Of(q: seq<Fragment>, c: Byte): seq<Fragment> {
    if q == [] then [] else (if Connection(q[0]) == c then [q[0]] else []) + Of(q[1..], c)
  }

  /** The fragments of every other connection, in order. */
  function NotOf(q: seq<Fragment>, c: Byte): seq<Fragment> {
    if q == [] then [] else (if Connection(q[0]) == c then [] else [q[0]]) + NotOf(q[1..], c)
  }

  predicate HasLast(q: seq<Fragment>, c: Byte) {
    exists i :: 0 <= i < |q| && Connection(q[i]) == c && IsLast(q[i])
  }

  /** Data of connection `c` up to and with its first last fragment. */
  function Message(q: seq<Fragment>, c: Byte): seq<Byte> {
    if q == [] then []
    else if Connection(q[0]) != c then Message(q[1..], c)
    else if IsLast(q[0]) then q[0][2..]
    else q[0][2..] + Message(q[1..], c)
  }

  /** The queue once that message has been taken out. */
  function Rest(q: seq<Fragment>, c: Byte): seq<Fragment> {
    if q == [] then []
    else if Connection(q[0]) != c then [q[0]] + Rest(q[1..], c)
    else if IsLast(q[0]) then q[1..]
    else Rest(q[1..], c)
  }

  // ---------------------------------------------------------------------------------------------
  // Round trip
  // ---------------------------------------------------------------------------------------------

  lemma {:induction false} OfFragments(c: Byte, msg: seq<Byte>, chunk: nat)
    requires chunk > 0
    ensures Of(Fragments(c, msg, chunk), c) == Fragments(c, msg, chunk)
    ensures NotOf(Fragments(c, msg, chunk), c) == []
  {
    if |msg| > chunk {
      OfFragments(c, msg[chunk..], chunk);
      var fs := Fragments(c, msg, chunk);
      assert fs[1..] == Fragments(c, msg[chunk..], chunk);
    } else if msg != [] {
      assert Fragments(c, msg, chunk)[1..] == [];
    }
  }

  /**
   * However the fragments of a message are interleaved with other connections and followed by later
   * messages, taking connection `c` out of the queue gives the message back, leaves what follows on
   * `c`, and leaves the other connections untouched and in order.
   */
  lemma {:induction false} RoundTrip(q: seq<Fragment>, c: Byte, msg: seq<Byte>, chunk: nat, later: seq<Fragment>)
    requires chunk > 0 && msg != []
    requires Of(q, c) == Fragments(c, msg, chunk) + later
    ensures HasLast(q, c) && Message(q, c) == msg
    ensures Of(Rest(q, c), c) == later && NotOf(Rest(q, c), c) == NotOf(q, c)
  {
    var fs := Fragments(c, msg, chunk);
    var t := q[1..];
    if Connection(q[0]) != c {
      RoundTrip(t, c, msg, chunk, later);
      assert Rest(q, c)[1..] == Rest(t, c);
      var i :| 0 <= i < |t| && Connection(t[i]) == c && IsLast(t[i]);
      assert q[i + 1] == t[i];
    } else {
      assert q[0] == (fs + later)[0] == fs[0];
      assert Of(t, c) == Of(q, c)[1..] == fs[1..] + later;
      if |msg| <= chunk {
        assert IsLast(q[0]) && q[0][2..] == msg;
      } else {
        var restOfMsg := msg[chunk..];
        assert !IsLast(q[0]) && q[0][2..] == msg[..chunk];
        assert fs[1..] == Fragments(c, restOfMsg, chunk);
        RoundTrip(t, c, restOfMsg, chunk, later);
        assert msg == msg[..chunk] + restOfMsg;
        var i :| 0 <= i < |t| && Connection(t[i]) == c && IsLast(t[i]);
        assert q[i + 1] == t[i];
      }
    }
  }

  /** An empty message sends nothing, so there is nothing to put together; every other one arrives. */
  lemma ArrivesExactlyWhenNotEmpty(c: Byte, msg: seq<Byte>, chunk: nat)
    requires chunk > 0
    ensures HasLast(Fragments(c, msg, chunk), c) && Message(Fragments(c, msg, chunk), c) == msg <==> msg != []
  {
    if msg != [] {
      var fs := Fragments(c, msg, chunk);
      OfFragments(c, msg, chunk);
      assert fs == fs + [];
      RoundTrip(fs, c, msg, chunk, []);
    }
  }

  /** Length of the next fragment io_write sends with `remaining` bytes to go. */
  function FragLen(remaining: nat, linkBufSize: int): int {
    Min(ChunkSize(linkBufSize), remaining)
  }

  /** The fragment loop advances on a non-empty remainder exactly when a link buffer holds data. */
  lemma FragmentLoopProgress(linkBufSize: int)
    ensures (forall remaining: nat :: remaining > 0 ==> FragLen(remaining, linkBufSize) > 0) <==> linkBufSize >= 3
  {
    if linkBufSize < 3 {
      assert FragLen(1, linkBufSize) <= 0;
    }
  }

  // ---------------------------------------------------------------------------------------------
  // io_write
  // ---------------------------------------------------------------------------------------------

  /** What a running slot with this link buffer sends of the message `msg`. */
  function Outgoing(c: Byte, msg: seq<Byte>, linkBufSize: int): seq<Fragment>
    requires linkBufSize != 2
  {
    if linkBufSize < 2 then [] else Fragments(c, msg, ChunkSize(linkBufSize))
  }

  /** Every fragment fits the link buffer and the host's own, and all but the last fill the smaller of the two. */
  lemma {:induction false} FragmentSizes(c: Byte, msg: seq<Byte>, linkBufSize: int)
    requires linkBufSize >= 3
    ensures var fs, room := Outgoing(c, msg, linkBufSize), if linkBufSize < 512 then linkBufSize else 512;
            forall i :: 0 <= i < |fs| ==> 2 < |fs[i]| <= room && (i < |fs| - 1 ==> |fs[i]| == room)
    decreases |msg|
  {
    var chunk := ChunkSize(linkBufSize);
    if |msg| > chunk {
      var rest := Outgoing(c, msg[chunk..], linkBufSize);
      FragmentSizes(c, msg[chunk..], linkBufSize);
      FirstFragment(c, msg, linkBufSize);
      assert rest != [];
    }
  }

  lemma FirstFragment(c: Byte, msg: seq<Byte>, linkBufSize: int)
    requires linkBufSize >= 3 && |msg| > ChunkSize(linkBufSize)
    ensures var chunk := ChunkSize(linkBufSize);
            Outgoing(c, msg, linkBufSize) == [MakeFragment(c, true, msg[..chunk])] + Outgoing(c, msg[chunk..], linkBufSize)
  {
  }

  /** The data of fragments, one after the other. */
  function DataOf(fs: seq<Fragment>): seq<Byte> {
    if fs == [] then [] else fs[0][2..] + DataOf(fs[1..])
  }

  /** Connection, then 0x80 on all but the last, then data: together the message. */
  lemma {:induction false} FragmentFormat(c: Byte, msg: seq<Byte>, chunk: nat)
    requires chunk > 0
    ensures var fs := Fragments(c, msg, chunk);
            && DataOf(fs) == msg
            && forall i :: 0 <= i < |fs| ==> fs[i][0] == c && fs[i][1] == if i < |fs| - 1 then 0x80 else 0x00
    decreases |msg|
  {
    if |msg| > chunk {
      var fs, rest := Fragments(c, msg, chunk), Fragments(c, msg[chunk..], chunk);
      FragmentFormat(c, msg[chunk..], chunk);
      assert fs[0][2..] == msg[..chunk] && fs[1..] == rest;
      assert rest != [];
    } else if msg != [] {
      assert Fragments(c, msg, chunk)[1..] == [];
    }
  }

  /** So there are as few of them as can be. */
  lemma {:induction false} FragmentCount(c: Byte, msg: seq<Byte>, linkBufSize: int)
    requires linkBufSize >= 3 && msg != []
    ensures var n, data := |Outgoing(c, msg, linkBufSize)|, if linkBufSize < 512 then linkBufSize - 2 else 510;
            (n - 1) * data < |msg| <= n * data
    decreases |msg|
  {
    var chunk := ChunkSize(linkBufSize);
    if |msg| > chunk {
      FragmentCount(c, msg[chunk..], linkBufSize);
      FirstFragment(c, msg, linkBufSize);
      OneMore(|Outgoing(c, msg[chunk..], linkBufSize)|, chunk);
    }
  }

  lemma OneMore(n: int, d: int)
    ensures (n + 1) * d == n * d + d && (n - 1) * d == n * d - d
  {
  }

  /** No fragment is longer than either buffer. */
  predicate FitTheLink(fs: seq<Fragment>, linkBufSize: int) {
    forall f :: f in fs ==> |f| <= 512 && |f| <= linkBufSize
  }

  /** One turn of the fragment loop peels off the head of what is still to be sent. */
  lemma FragmentStep(c: Byte, msg: seq<Byte>, pos: nat, chunk: nat)
    requires chunk > 0 && pos < |msg|
    ensures var n := Min(chunk, |msg| - pos);
            Fragments(c, msg[pos..], chunk)
            == [MakeFragment(c, pos + n < |msg|, msg[pos..pos + n])] + Fragments(c, msg[pos + n..], chunk)
  {
    var n := Min(chunk, |msg| - pos);
    var rest := msg[pos..];
    assert rest[..n] == msg[pos..pos + n];
    assert rest[n..] == msg[pos + n..];
    assert pos + n == |msg| ==> rest[..n] == rest && Fragments(c, msg[pos + n..], chunk) == [];
  }

  /** The same with what has been sent already in front. */
  lemma SendStep(sent: seq<Fragment>, c: Byte, msg: seq<Byte>, pos: nat, n: nat, chunk: nat)
    requires chunk > 0 && pos < |msg| && n == Min(chunk, |msg| - pos)
    ensures var f := MakeFragment(c, pos + n < |msg|, msg[pos..pos + n]);
            var all := sent + Fragments(c, msg[pos..], chunk);
            && all == (sent + [f]) + Fragments(c, msg[pos + n..], chunk)
            && |sent| < |all| && all[..|sent|] == sent
  {
    hide Fragments, MakeFragment;
    FragmentStep(c, msg, pos, chunk);
  }

  lemma NothingToSend(c: Byte, sent: seq<Fragment>, chunk: nat)
    requires chunk > 0
    ensures sent + Fragments(c, [], chunk) == sent
  {
  }

  /**
   * `accepts` is the number of link packets the CAM takes before write_data fails with `failure`.
   * With a link buffer of exactly 2 bytes the loop would send empty fragments for ever, and with a
   * smaller one it gives up at once and still reports success.
   */
  method IoWrite(buf: seq<Byte>, slotRunning: seq<bool>, linkBufSize: seq<int>, accepts: nat, failure: int)
    returns (status: int, sent: seq<Fragment>)
    requires |linkBufSize| == |slotRunning| && failure < 0
    requires 2 < |buf| && buf[0] < |slotRunning| ==> linkBufSize[buf[0]] != 2
    ensures |buf| < 2 || buf[0] >= |slotRunning| || !slotRunning[buf[0]] ==> status == -EINVAL && sent == []
    ensures |buf| == 2 && buf[0] < |slotRunning| && slotRunning[buf[0]] ==> status == 2 && sent == []
    ensures |buf| > 2 && buf[0] < |slotRunning| && slotRunning[buf[0]] ==>
              var fs := Outgoing(buf[1], buf[2..], linkBufSize[buf[0]]);
              if |fs| <= accepts then sent == fs && status == |buf|
              else sent == fs[..accepts] && status == failure
    ensures sent != [] ==> FitTheLink(sent, linkBufSize[buf[0]])
  {
    hide Fragments, MakeFragment;
    if |buf| < 2 { return -EINVAL, []; }
    var slot, connectionId, msg := buf[0], buf[1], buf[2..];
    if slot >= |slotRunning| || !slotRunning[slot] { return -EINVAL, []; }
    var fragpos := 0;
    sent := [];
    ghost var chunk := if |buf| > 2 && linkBufSize[slot] > 2 then ChunkSize(linkBufSize[slot]) else 1;
    ghost var all := Fragments(connectionId, msg, chunk);
    assert msg[0..] == msg;
    while fragpos < |msg|
      invariant 0 <= fragpos <= |msg|
      invariant |sent| <= accepts && FitTheLink(sent, linkBufSize[slot])
      invariant |msg| > 0 && linkBufSize[slot] < 2 ==> fragpos == 0
      invariant all == sent + Fragments(connectionId, msg[fragpos..], chunk)
    {
      var fraglen := linkBufSize[slot] - 2;
      if fraglen < 0 { break; }
      if fraglen > HOST_LINK_BUF_SIZE - 2 { fraglen := HOST_LINK_BUF_SIZE - 2; }
      if |msg| - fragpos < fraglen { fraglen := |msg| - fragpos; }
      var fragbuf := MakeFragment(connectionId, fragpos + fraglen < |msg|, msg[fragpos..fragpos + fraglen]);
      SendStep(sent, connectionId, msg, fragpos, fraglen, chunk);
      if |sent| == accepts { return failure, sent; }
      sent := sent + [fragbuf];
      fragpos := fragpos + fraglen;
    }
    NothingToSend(connectionId, sent, chunk);
    assert fragpos == |msg| ==> msg[fragpos..] == [];
    status := |msg| + 2;
  }

  // ---------------------------------------------------------------------------------------------
  // From the packets of a ring to the queue of fragments
  // ---------------------------------------------------------------------------------------------

  predicate AllFragments(ps: seq<Packet>) {
    forall i :: 0 <= i < |ps| ==> 2 <= |ps[i].payload|
  }

  /** The fragments still to be read. */
  function Ready(ps: seq<Packet>): seq<Fragment>
    requires AllFragments(ps)
  {
    if ps == [] then [] else (if ps[0].disposed then [] else [ps[0].payload]) + Ready(ps[1..])
  }

  lemma ReadyFirst(p: Packet, ps: seq<Packet>)
    requires AllFragments([p]) && AllFragments(ps)
    ensures AllFragments([p] + ps) && Ready([p] + ps) == Ready([p]) + Ready(ps)
  {
    assert ([p] + ps)[1..] == ps && [p][1..] == [];
  }

  lemma {:induction false} ReadySplit(a: seq<Packet>, b: seq<Packet>)
    requires AllFragments(a) && AllFragments(b)
    ensures AllFragments(a + b) && Ready(a + b) == Ready(a) + Ready(b)
  {
    if a == [] {
      assert a + b == b;
    } else {
      hide Ready;
      ReadySplit(a[1..], b);
      assert a == [a[0]] + a[1..];
      assert a + b == [a[0]] + (a[1..] + b);
      ReadyFirst(a[0], a[1..]);
      ReadyFirst(a[0], a[1..] + b);
      Associative(Ready([a[0]]), Ready(a[1..]), Ready(b));
    }
  }

  lemma {:induction false} ReadyDropDisposed(ps: seq<Packet>)
    requires AllFragments(ps)
    ensures AllFragments(DropDisposed(ps)) && Ready(DropDisposed(ps)) == Ready(ps)
  {
    if ps != [] && ps[0].disposed {
      ReadyDropDisposed(ps[1..]);
    }
  }

  /** Skipping to the next ready packet skips nothing that is ready. */
  lemma {:induction false} ReadySkip(ps: seq<Packet>, k: nat)
    requires AllFragments(ps) && k <= |ps|
    ensures var j := NextReady(ps, k);
            && Ready(ps[k..]) == Ready(ps[j..])
            && Ready(ps[..k]) == Ready(ps[..j])
            && (j < |ps| ==> Ready(ps[j..]) == [ps[j].payload] + Ready(ps[j + 1..]))
    decreases |ps| - k
  {
    if k < |ps| {
      assert ps[k..][1..] == ps[k + 1..];
      if ps[k].disposed {
        ReadySkip(ps, k + 1);
        ReadySplit(ps[..k], [ps[k]]);
        assert ps[..k + 1] == ps[..k] + [ps[k]];
      }
    }
  }

  lemma ReadyOne(p: Packet)
    requires AllFragments([p])
    ensures Ready([p]) == if p.disposed then [] else [p.payload]
  {
  }

  lemma {:induction false} ReadyOfDisposed(ps: seq<Packet>)
    requires AllFragments(ps) && forall i :: 0 <= i < |ps| ==> ps[i].disposed
    ensures Ready(ps) == []
  {
    if ps != [] {
      ReadyOfDisposed(ps[1..]);
    }
  }

  /** The freed packets all lie before the next ready one. */
  lemma FreedBeforeNext(ps: seq<Packet>, k: nat)
    requires k < |ps|
    ensures DisposedRun(Marked(ps, k)) <= NextReady(ps, k + 1)
  {
    var m, j := Marked(ps, k), NextReady(ps, k + 1);
    DropDisposedIsLongestPrefix(m);
    assert j < |ps| ==> m[j] == ps[j];
  }

  /** `b` and `ps` hold the same fragments when they differ by disposed packets at the ends only. */
  lemma ReadyMiddle(a: seq<Packet>, b: seq<Packet>, ps: seq<Packet>, c: seq<Packet>)
    requires AllFragments(a) && AllFragments(b) && AllFragments(ps) && AllFragments(c)
    requires a + b == ps + c
    requires forall i :: 0 <= i < |a| ==> a[i].disposed
    requires forall i :: 0 <= i < |c| ==> c[i].disposed
    ensures Ready(b) == Ready(ps)
  {
    ReadySplit(a, b);
    ReadySplit(ps, c);
    ReadyOfDisposed(a);
    ReadyOfDisposed(c);
  }

  /**
   * After packet `k` is disposed of, the next ready packet, once at position `j`, is found at `j`
   * less the number of packets freed; what lies before and after it is as it was without `k`.
   */
  lemma AfterDispose(ps: seq<Packet>, k: nat)
    requires AllFragments(ps) && k < |ps| && !ps[k].disposed
    ensures var m, j := Marked(ps, k), NextReady(ps, k + 1);
            var n, after := DisposedRun(m), DropDisposed(m);
            && n <= j && |after| == |ps| - n && AllFragments(after)
            && Ready(after[..j - n]) == Ready(ps[..k])
            && Ready(after[j - n..]) == Ready(ps[j..])
            && (j < |ps| ==> after[j - n] == ps[j])
  {
    hide Ready, DropDisposed, DisposedRun, NextReady, Marked;
    var m, j := Marked(ps, k), NextReady(ps, k + 1);
    var n := DisposedRun(m);
    DropDisposedIsLongestPrefix(m);
    FreedBeforeNext(ps, k);
    MarkedParts(ps, k, j);
    CutTwice(m, n, j);
    ReadyBetween(ps, m, k, n, j);
  }

  lemma MarkedParts(ps: seq<Packet>, k: nat, j: nat)
    requires AllFragments(ps) && k < j <= |ps|
    ensures var m := Marked(ps, k);
            |m| == |ps| && AllFragments(m) && m[..k] == ps[..k] && m[j..] == ps[j..] && m[k].disposed
    ensures forall i :: 0 <= i < |ps| && i != k ==> Marked(ps, k)[i] == ps[i]
  {
  }

  /** Up to `j`, what is left behind the freed packets holds the fragments before packet `k`. */
  lemma ReadyBetween(ps: seq<Packet>, m: seq<Packet>, k: nat, n: nat, j: nat)
    requires AllFragments(ps) && AllFragments(m) && |m| == |ps| && k < j <= |ps| && n <= j && m[..k] == ps[..k]
    requires forall i :: 0 <= i < n ==> m[i].disposed
    requires forall i :: k <= i < j ==> m[i].disposed
    ensures Ready(m[n..j]) == Ready(ps[..k])
  {
    hide Ready;
    assert m[..n] + m[n..j] == m[..j];
    assert m[..k] + m[k..j] == m[..j];
    ReadyMiddle(m[..n], m[n..j], ps[..k], m[k..j]);
  }

  lemma CutTwice<T>(m: seq<T>, n: nat, j: nat)
    requires n <= j <= |m|
    ensures m[n..][j - n..] == m[j..] && m[n..][..j - n] == m[n..j]
  {
  }

  /** The first ready packet is the front of the queue. */
  lemma AtFront(ps: seq<Packet>)
    requires AllFragments(ps)
    ensures var j := NextReady(ps, 0);
            && Ready(ps[..j]) == [] && Ready(ps[j..]) == Ready(ps)
            && (j < |ps| ==> Ready(ps) != [] && Ready(ps)[0] == ps[j].payload)
            && (j == |ps| ==> Ready(ps) == [])
  {
    ReadySkip(ps, 0);
    assert ps[0..] == ps;
  }

  /** The queue split at a ready packet, and at the ready packet after it. */
  lemma AtReady(ps: seq<Packet>, k: nat)
    requires AllFragments(ps) && k < |ps| && !ps[k].disposed
    ensures Ready(ps[k..]) == [ps[k].payload] + Ready(ps[k + 1..])
    ensures var j := NextReady(ps, k + 1);
            && Ready(ps[k + 1..]) == Ready(ps[j..])
            && Ready(ps[..j]) == Ready(ps[..k]) + [ps[k].payload]
  {
    ReadySkip(ps, k + 1);
    assert ps[k..][1..] == ps[k + 1..];
    assert ps[..k + 1] == ps[..k] + [ps[k]];
    ReadySplit(ps[..k], [ps[k]]);
  }

  lemma WholeQueue(ps: seq<Packet>, k: nat)
    requires AllFragments(ps) && k <= |ps|
    ensures Ready(ps) == Ready(ps[..k]) + Ready(ps[k..])
    ensures k == |ps| ==> Ready(ps[..k]) == Ready(ps) && Ready(ps[k..]) == []
  {
    assert ps == ps[..k] + ps[k..];
    ReadySplit(ps[..k], ps[k..]);
  }

  /** The ring of a slot, used for link fragments. */
  ghost predicate HoldsFragments(rx: DvbRingbuffer)
    reads rx, rx.data
  {
    rx.HoldsPackets() && AllFragments(rx.Packets())
  }

  ghost function Queue(rx: DvbRingbuffer): seq<Fragment>
    requires HoldsFragments(rx)
    reads rx, rx.data
  {
    Ready(rx.Packets())
  }

  // ---------------------------------------------------------------------------------------------
  // io_read
  // ---------------------------------------------------------------------------------------------

  /** The header bytes of packet `k`. */
  method ReadHeader(rx: DvbRingbuffer, idx: nat, ghost k: nat) returns (connection: Byte, last: bool)
    requires HoldsFragments(rx) && k < |rx.Packets()| && idx == rx.IndexOf(k)
    ensures connection == Connection(rx.Packets()[k].payload) && last == IsLast(rx.Packets()[k].payload)
  {
    hide Decodable, Decode;
    var n, hdr := rx.PktRead(idx, 0, 2, k);
    connection := hdr[0];
    last := hdr[1] < 0x80;
  }

  /** Appends to `out` as much of a fragment's data as the caller has room for. */
  method CopyData(rx: DvbRingbuffer, idx: nat, fraglen: nat, room: nat, out: seq<Byte>, ghost sofar: seq<Byte>, ghost k: nat)
    returns (more: seq<Byte>)
    requires HoldsFragments(rx) && k < |rx.Packets()| && idx == rx.IndexOf(k)
    requires fraglen == |rx.Packets()[k].payload|
    requires out == sofar[..Min(room, |sofar|)]
    ensures var all := sofar + rx.Packets()[k].payload[2..];
            more == all[..Min(room, |all|)]
  {
    hide Decodable, Decode;
    more := out;
    if |out| < room {
      var want := if |out| + fraglen - 2 > room then room - |out| else fraglen - 2;
      var n, data := rx.PktRead(idx, 2, want, k);
      more := out + data;
    }
  }

  /** The loop stands at packet `k`, or past the last ready packet when `idx` is -1. */
  ghost predicate At(rx: DvbRingbuffer, idx: int, fraglen: nat, k: nat)
    requires HoldsFragments(rx)
    reads rx, rx.data
  {
    && k <= |rx.Packets()| && (idx == -1 <==> k == |rx.Packets()|)
    && (k < |rx.Packets()| ==> idx == rx.IndexOf(k) && !rx.Packets()[k].disposed && fraglen == |rx.Packets()[k].payload|)
  }

  /** Looks up the fragment after the one at `idx`, then disposes of the latter. */
  method Consume(rx: DvbRingbuffer, idx: nat, ghost k: nat) returns (next: int, fraglen: nat, ghost k': nat)
    requires HoldsFragments(rx) && k < |rx.Packets()| && idx == rx.IndexOf(k) && !rx.Packets()[k].disposed
    modifies rx, rx.data
    ensures HoldsFragments(rx) && At(rx, next, fraglen, k')
    ensures |rx.Packets()| - k' < old(|rx.Packets()|) - k
    ensures Ready(rx.Packets()[..k']) == old(Ready(rx.Packets()[..k]))
    ensures Ready(rx.Packets()[k'..]) == old(Ready(rx.Packets()[k + 1..]))
  {
    hide Decodable, Decode, Encode, Unread, DropDisposed, DisposedRun, NextReady, Ready;
    ghost var ps := rx.Packets();
    AtReady(ps, k);
    next, fraglen := rx.PktNext(idx, k);
    AfterDispose(ps, k);
    k' := NextReady(ps, k + 1) - DisposedRun(Marked(ps, k));
    rx.PktDispose(idx, k);
  }

  /** What stays to be done for connection `c`, split at the fragment the loop has reached. */
  ghost predicate Split(q: seq<Fragment>, c: Byte, before: seq<Fragment>, sofar: seq<Byte>, ahead: seq<Fragment>) {
    && Rest(q, c) == before + Rest(ahead, c)
    && Message(q, c) == sofar + Message(ahead, c)
    && HasLast(q, c) == HasLast(ahead, c)
  }

  lemma SplitStart(q: seq<Fragment>, c: Byte)
    ensures Split(q, c, [], [], q)
  {
  }

  lemma SplitEnd(q: seq<Fragment>, c: Byte, before: seq<Fragment>, sofar: seq<Byte>)
    requires Split(q, c, before, sofar, [])
    ensures !HasLast(q, c) && Rest(q, c) == before && Message(q, c) == sofar
  {
  }

  lemma SplitStep(q: seq<Fragment>, c: Byte, before: seq<Fragment>, sofar: seq<Byte>, ahead: seq<Fragment>)
    requires ahead != [] && Split(q, c, before, sofar, ahead)
    ensures Connection(ahead[0]) != c ==> Split(q, c, before + [ahead[0]], sofar, ahead[1..])
    ensures Connection(ahead[0]) == c && !IsLast(ahead[0]) ==> Split(q, c, before, sofar + ahead[0][2..], ahead[1..])
    ensures Connection(ahead[0]) == c && IsLast(ahead[0]) ==>
              HasLast(q, c) && Rest(q, c) == before + ahead[1..] && Message(q, c) == sofar + ahead[0][2..]
  {
    var t := ahead[1..];
    if HasLast(t, c) {
      var i :| 0 <= i < |t| && Connection(t[i]) == c && IsLast(t[i]);
      assert ahead[i + 1] == t[i];
    }
    if HasLast(ahead, c) && !(Connection(ahead[0]) == c && IsLast(ahead[0])) {
      var i :| 0 <= i < |ahead| && Connection(ahead[i]) == c && IsLast(ahead[i]);
      assert t[i - 1] == ahead[i];
    }
  }

  /**
   * The read loop on one slot's ring: data of the front fragment's connection, up to and with its
   * last fragment, cut to what the caller has room for. Those fragments leave the queue; the others
   * stay in order. Only when no last fragment is stored does the loop run off the end (`bug`).
   */
  method ReadMessage(rx: DvbRingbuffer, room: nat) returns (bug: bool, connection: int, out: seq<Byte>)
    requires HoldsFragments(rx)
    modifies rx, rx.data
    ensures HoldsFragments(rx)
    ensures var q := old(Queue(rx));
            if q == [] then bug && Queue(rx) == []
            else
              var c := Connection(q[0]);
              && bug == !HasLast(q, c)
              && connection == c
              && Queue(rx) == Rest(q, c)
              && out == Message(q, c)[..Min(room, |Message(q, c)|)]
  {
    hide Decodable, Decode, Encode, Unread, HasLast, Message, Rest, DropDisposed, DisposedRun, NextReady, Ready;
    ghost var q := Queue(rx);
    ghost var c: Byte := if q == [] then 0 else Connection(q[0]);
    ghost var sofar: seq<Byte> := [];
    ghost var k: nat := NextReady(rx.Packets(), 0);
    AtFront(rx.Packets());
    SplitStart(q, c);
    out, connection := [], -1;
    var idx, fraglen := rx.PktNext(-1, 0);
    while idx != -1
      invariant HoldsFragments(rx) && At(rx, idx, fraglen, k)
      invariant connection == -1 ==> (if idx == -1 then q == [] else q != [] && rx.Packets()[k].payload == q[0])
      invariant connection == -1 || (connection == c && q != [])
      invariant Split(q, c, Ready(rx.Packets()[..k]), sofar, Ready(rx.Packets()[k..]))
      invariant out == sofar[..Min(room, |sofar|)]
      decreases |rx.Packets()| - k
    {
      ghost var ps := rx.Packets();
      var fragConnection, last := ReadHeader(rx, idx, k);
      if connection == -1 { connection := fragConnection; }
      AtReady(ps, k);
      SplitStep(q, c, Ready(ps[..k]), sofar, Ready(ps[k..]));
      if fragConnection == connection {
        out := CopyData(rx, idx, fraglen, room, out, sofar, k);
        sofar := sofar + ps[k].payload[2..];
        idx, fraglen, k := Consume(rx, idx, k);
        if last {
          WholeQueue(rx.Packets(), k);
          bug := false;
          return;
        }
      } else {
        idx, fraglen := rx.PktNext(idx, k);
        k := NextReady(ps, k + 1);
      }
    }
    WholeQueue(rx.Packets(), k);
    SplitEnd(q, c, Queue(rx), sofar);
    bug := true;
  }

  // ---------------------------------------------------------------------------------------------
  // Choosing a slot
  // ---------------------------------------------------------------------------------------------

  /** A slot as io_read sees it; `rx` is null until link initialisation has allocated a buffer. */
  datatype Slot = Slot(running: bool, rx: DvbRingbuffer?)

  datatype SlotQueue = Stopped | NoBuffer | Holds(q: seq<Fragment>)

  /** Outcome of the scan: `next` is the slot the next read starts from. */
  datatype Choice = Choice(found: bool, slot: nat, next: nat, connection: int)

  ghost predicate SlotOk(sl: Slot)
    reads if sl.rx == null then {} else {sl.rx, sl.rx.data}
  {
    sl.rx != null ==> HoldsFragments(sl.rx)
  }

  ghost function View(sl: Slot): SlotQueue
    requires SlotOk(sl)
    reads if sl.rx == null then {} else {sl.rx, sl.rx.data}
  {
    if !sl.running then Stopped else if sl.rx == null then NoBuffer else Holds(Queue(sl.rx))
  }

  /** `vs` are the queues of the slots. */
  ghost predicate Shows(slots: seq<Slot>, vs: seq<SlotQueue>)
    reads set i | 0 <= i < |slots| && slots[i].rx != null :: slots[i].rx
    reads set i | 0 <= i < |slots| && slots[i].rx != null :: slots[i].rx.data
  {
    |vs| == |slots| && forall i :: 0 <= i < |slots| ==> SlotOk(slots[i]) && vs[i] == View(slots[i])
  }

  /** The connection the scan looks for, once it has seen queue `q`. */
  function Target(connection: int, q: seq<Fragment>): int {
    if connection == -1 && q != [] then Connection(q[0]) else connection
  }

  predicate Complete(q: seq<Fragment>, connection: int) {
    0 <= connection < 256 && HasLast(q, connection)
  }

  /** One fragment more of a queue that so far holds no complete message of `connection`. */
  lemma ScanMore(before: seq<Fragment>, f: Fragment, behind: seq<Fragment>, wanted: int, connection: int)
    requires -1 <= wanted < 256 && connection == (if before == [] then wanted else Target(wanted, before + ([f] + behind)))
    requires !Complete(before, connection)
    ensures var q := before + ([f] + behind);
            var target := if connection == -1 then Connection(f) else connection;
            && target == Target(wanted, q) && 0 <= target < 256
            && (if Connection(f) == target && IsLast(f) then Complete(q, target) else !Complete(before + [f], target))
  {
    var q := before + ([f] + behind);
    assert q[|before|] == f;
    assert before != [] ==> q[0] == before[0];
  }

  /**
   * `left` slots from `slot` on, round robin. The connection found on one slot is kept for the
   * slots after it.
   */
  function Scan(vs: seq<SlotQueue>, start: nat, slot: nat, left: nat, connection: int): Choice
    requires slot < |vs|
    decreases left
  {
    if left == 0 then Choice(false, slot, slot, connection) else
      var next := (slot + 1) % |vs|;
      match vs[slot]
      case Stopped => Scan(vs, start, next, left - 1, connection)
      case NoBuffer => Choice(false, slot, start, connection)
      case Holds(q) =>
        var c := Target(connection, q);
        if Complete(q, c) then Choice(true, slot, next, c) else Scan(vs, start, next, left - 1, c)
  }

  /** The fragments of the ring up to the first last fragment of the connection looked for. */
  method ScanSlot(rx: DvbRingbuffer, connectionId: int) returns (connection: int, found: bool)
    requires HoldsFragments(rx) && -1 <= connectionId < 256
    ensures connection == Target(connectionId, Queue(rx)) && -1 <= connection < 256
    ensures found == Complete(Queue(rx), connection)
  {
    hide Decodable, Decode, Encode, Unread, DropDisposed, DisposedRun, NextReady, Ready, Complete, Target;
    ghost var ps, q := rx.Packets(), Queue(rx);
    ghost var k: nat := NextReady(ps, 0);
    AtFront(ps);
    connection, found := connectionId, false;
    NoTarget(connectionId);
    var idx, fraglen := rx.PktNext(-1, 0);
    while idx != -1
      invariant At(rx, idx, fraglen, k) && -1 <= connection < 256
      invariant connection == (if Ready(ps[..k]) == [] then connectionId else Target(connectionId, q))
      invariant Ready(ps[..k]) + Ready(ps[k..]) == q
      invariant !Complete(Ready(ps[..k]), connection)
      decreases |ps| - k
    {
      var fragConnection, last := ReadHeader(rx, idx, k);
      AtReady(ps, k);
      ScanMore(Ready(ps[..k]), ps[k].payload, Ready(ps[k + 1..]), connectionId, connection);
      if connection == -1 { connection := fragConnection; }
      if fragConnection == connection && last { return connection, true; }
      Associative(Ready(ps[..k]), [ps[k].payload], Ready(ps[k + 1..]));
      idx, fraglen := rx.PktNext(idx, k);
      k := NextReady(ps, k + 1);
    }
    WholeQueue(ps, k);
    NoTarget(connectionId);
  }

  lemma NoTarget(wanted: int)
    ensures Target(wanted, []) == wanted && !Complete([], wanted)
  {
  }

  /** io_read_condition */
  method IoReadCondition(slots: seq<Slot>, nextReadSlot: nat, ghost vs: seq<SlotQueue>) returns (choice: Choice)
    requires Shows(slots, vs) && nextReadSlot < |slots|
    ensures choice == Scan(vs, nextReadSlot, nextReadSlot, |slots|, -1)
  {
    hide Scan, Complete, Ready;
    var slot: nat, slotCount: nat, connectionId: int := nextReadSlot, 0, -1;
    while slotCount < |slots|
      invariant slot < |slots| && slotCount <= |slots| && -1 <= connectionId < 256
      invariant Scan(vs, nextReadSlot, nextReadSlot, |slots|, -1)
             == Scan(vs, nextReadSlot, slot, |slots| - slotCount, connectionId)
    {
      var sl := slots[slot];
      assert SlotOk(sl) && vs[slot] == View(sl);
      ScanStep(vs, nextReadSlot, slot, |slots| - slotCount, connectionId);
      var found := false;
      if sl.running {
        if sl.rx == null { return Choice(false, slot, nextReadSlot, connectionId); }
        connectionId, found := ScanSlot(sl.rx, connectionId);
      }
      if found { return Choice(true, slot, (slot + 1) % |slots|, connectionId); }
      slot := (slot + 1) % |slots|;
      slotCount := slotCount + 1;
    }
    ScanStep(vs, nextReadSlot, slot, |slots| - slotCount, connectionId);
    choice := Choice(false, slot, slot, connectionId);
  }

  /** The definition of `Scan`, once. */
  lemma ScanStep(vs: seq<SlotQueue>, start: nat, slot: nat, left: nat, connection: int)
    requires slot < |vs|
    ensures left == 0 ==> Scan(vs, start, slot, left, connection) == Choice(false, slot, slot, connection)
    ensures left > 0 ==>
              var next := (slot + 1) % |vs|;
              Scan(vs, start, slot, left, connection) ==
                match vs[slot]
                case Stopped => Scan(vs, start, next, left - 1, connection)
                case NoBuffer => Choice(false, slot, start, connection)
                case Holds(q) =>
                  if Complete(q, Target(connection, q)) then Choice(true, slot, next, Target(connection, q))
                  else Scan(vs, start, next, left - 1, Target(connection, q))
  {
  }

  /** What a read of `count` bytes returns and leaves behind, given the queues before it. */
  ghost predicate ReadResult(vs: seq<SlotQueue>, start: nat, count: nat, status: int, buf: seq<Byte>, next: nat, bug: bool, after: seq<SlotQueue>)
    requires start < |vs| < 256 && 2 <= count
  {
    var choice := Scan(vs, start, start, |vs|, -1);
    next == choice.next &&
    if !choice.found then status == -EWOULDBLOCK && buf == [] && !bug && after == vs
    else
      choice.slot < |vs| && vs[choice.slot].Holds? && vs[choice.slot].q != [] &&
      var q := vs[choice.slot].q;
      var c := Connection(q[0]);
      && bug == !HasLast(q, c)
      && (bug ==> status == -EIO && buf == [])
      && (!bug ==> buf == Reply(choice.slot, c, Message(q, c), count) && status == |buf|)
      && after == vs[choice.slot := Holds(Rest(q, c))]
  }

  /** io_read on a non-blocking file. `bug` is the "ended before last_fragment" branch. */
  method IoRead(slots: seq<Slot>, nextReadSlot: nat, count: nat, ghost vs: seq<SlotQueue>)
    returns (status: int, buf: seq<Byte>, next: nat, bug: bool, ghost after: seq<SlotQueue>)
    requires Shows(slots, vs) && nextReadSlot < |slots| < 256
    requires forall i, j :: 0 <= i < j < |slots| && slots[i].rx != null && slots[j].rx != null ==>
               slots[i].rx != slots[j].rx && slots[i].rx.data != slots[j].rx.data
    modifies set i | 0 <= i < |slots| && slots[i].rx != null :: slots[i].rx
    modifies set i | 0 <= i < |slots| && slots[i].rx != null :: slots[i].rx.data
    ensures Shows(slots, after)
    ensures count < 2 ==> status == -EINVAL && buf == [] && next == nextReadSlot && !bug && after == vs
    ensures count >= 2 ==> ReadResult(vs, nextReadSlot, count, status, buf, next, bug, after)
    ensures count < 2 || !Scan(vs, nextReadSlot, nextReadSlot, |slots|, -1).found ==>
              forall i :: 0 <= i < |slots| && slots[i].rx != null ==> unchanged(slots[i].rx, slots[i].rx.data)
  {
    hide Scan, HasLast, Message, Rest, Decodable, Decode, Ready, Unread;
    buf, bug, next, after := [], false, nextReadSlot, vs;
    if count < 2 { return -EINVAL, buf, next, bug, after; }
    var choice := IoReadCondition(slots, nextReadSlot, vs);
    next := choice.next;
    if !choice.found { return -EWOULDBLOCK, buf, next, bug, after; }
    ScanFound(vs, nextReadSlot, nextReadSlot, |slots|, -1);
    assert vs[choice.slot] == View(slots[choice.slot]);
    var rx := slots[choice.slot].rx;
    var connection, out;
    bug, connection, out := ReadMessage(rx, count - 2);
    ghost var q := vs[choice.slot].q;
    after := vs[choice.slot := Holds(Rest(q, Connection(q[0])))];
    forall i | 0 <= i < |slots| ensures SlotOk(slots[i]) && after[i] == View(slots[i]) {
      if i != choice.slot {
        assert vs[i] == old(View(slots[i]));
      }
    }
    if bug { return -EIO, buf, next, bug, after; }
    buf := [choice.slot, connection] + out;
    status := |buf|;
  }

  /** Slot, connection and as much of the message as `count` bytes hold. */
  function Reply(slot: nat, c: Byte, msg: seq<Byte>, count: nat): seq<Byte>
    requires slot < 256 && 2 <= count
  {
    [slot, c] + msg[..Min(count - 2, |msg|)]
  }

  lemma {:induction false} ScanFound(vs: seq<SlotQueue>, start: nat, slot: nat, left: nat, connection: int)
    requires slot < |vs|
    ensures var choice := Scan(vs, start, slot, left, connection);
            choice.found ==>
              && choice.slot < |vs| && vs[choice.slot].Holds? && vs[choice.slot].q != []
              && Complete(vs[choice.slot].q, choice.connection)
    decreases left
  {
    if left > 0 {
      var next := (slot + 1) % |vs|;
      match vs[slot]
      case Stopped => ScanFound(vs, start, next, left - 1, connection);
      case NoBuffer =>
      case Holds(q) => ScanFound(vs, start, next, left - 1, Target(connection, q));
    }
  }
}
