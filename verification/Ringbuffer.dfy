/**
 * The byte ring of dvb_ringbuffer.c and the packet ring layered on the same array.
 *
 * `Unread` is the queue of bytes the ring stands for. A ring used for packets holds a list of
 * packets, each a two byte length, a status byte and its payload; `Decode` reads that list back
 * from the bytes, so the list is a function of the array and the two pointers alone.
 */
module Ringbuffer {
  import opened Bytes

  const PKT_READY: Byte := 0
  const PKT_DISPOSED: Byte := 1
  const PKTHDRSIZE := 3
  const EINVAL := 22

  // ---------------------------------------------------------------------------------------------
  // Circular arithmetic
  // ---------------------------------------------------------------------------------------------

  /** Position `i`, at most one lap past the end, folded back into an array of length `n`. */
  function Wrap(i: nat, n: nat): (w: nat)
    requires i < 2 * n
    ensures w < n
  {
    if i < n then i else i - n
  }

  lemma ModIsWrap(i: nat, n: nat)
    requires i < 2 * n
    ensures i % n == Wrap(i, n)
  {
    if n <= i {
      assert i == n + (i - n);
    }
  }

  /** The bytes between the read and the write pointer, oldest first. */
  function Unread(d: seq<Byte>, r: nat, w: nat): (q: seq<Byte>)
    requires r < |d| && w < |d|
    ensures |q| < |d|
  {
    if r <= w then d[r..w] else d[r..] + d[..w]
  }

  lemma UnreadAt(d: seq<Byte>, r: nat, w: nat, k: nat)
    requires r < |d| && w < |d| && k < |Unread(d, r, w)|
    ensures Unread(d, r, w)[k] == d[Wrap(r + k, |d|)]
  {
  }

  lemma UnreadUpdate(d: seq<Byte>, r: nat, w: nat, k: nat, b: Byte)
    requires r < |d| && w < |d| && k < |Unread(d, r, w)|
    ensures Unread(d[Wrap(r + k, |d|) := b], r, w) == Unread(d, r, w)[k := b]
  {
  }

  lemma UnreadSkip(d: seq<Byte>, r: nat, w: nat, n: nat)
    requires r < |d| && w < |d| && n <= |Unread(d, r, w)|
    ensures Unread(d, Wrap(r + n, |d|), w) == Unread(d, r, w)[n..]
  {
  }

  /** Storing `s` from the write pointer on, without a wrap, appends it to the queue. */
  lemma UnreadStore(d: seq<Byte>, d': seq<Byte>, r: nat, w: nat, s: seq<Byte>)
    requires r < |d| == |d'| && w < |d|
    requires w + |s| <= |d| && |Unread(d, r, w)| + |s| < |d|
    requires d'[..w] == d[..w] && d'[w + |s|..] == d[w + |s|..] && d'[w..w + |s|] == s
    ensures Unread(d', r, Wrap(w + |s|, |d|)) == Unread(d, r, w) + s
  {
    var q := Unread(d', r, Wrap(w + |s|, |d|));
    assert |q| == |Unread(d, r, w)| + |s|;
    forall k | 0 <= k < |q| ensures q[k] == (Unread(d, r, w) + s)[k] {
      UnreadAt(d', r, Wrap(w + |s|, |d|), k);
      var i := Wrap(r + k, |d|);
      if k < |Unread(d, r, w)| {
        UnreadAt(d, r, w, k);
        assert d'[i] == d[i] by {
          if i < w { assert d'[..w][i] == d[..w][i]; }
          else { assert d'[w + |s|..][i - (w + |s|)] == d[w + |s|..][i - (w + |s|)]; }
        }
      } else {
        assert d'[w..w + |s|][k - |Unread(d, r, w)|] == s[k - |Unread(d, r, w)|];
      }
    }
  }

  // ---------------------------------------------------------------------------------------------
  // Packets
  // ---------------------------------------------------------------------------------------------

  datatype Packet = Packet(disposed: bool, payload: seq<Byte>)

  /** The length field has 16 bits, and the scanning loops skip a trailing empty packet. */
  predicate Storable(p: Packet) {
    0 < |p.payload| < 0x1_0000
  }

  predicate AllStorable(ps: seq<Packet>) {
    forall i :: 0 <= i < |ps| ==> Storable(ps[i])
  }

  function Header(p: Packet): (h: seq<Byte>)
    ensures |h| == PKTHDRSIZE
  {
    [|p.payload| / 256 % 256, |p.payload| % 256, if p.disposed then PKT_DISPOSED else PKT_READY]
  }

  function Block(p: Packet): seq<Byte> {
    Header(p) + p.payload
  }

  function Encode(ps: seq<Packet>): seq<Byte> {
    if ps == [] then [] else Block(ps[0]) + Encode(ps[1..])
  }

  /** `b` is the encoding of some list of packets. */
  predicate Decodable(b: seq<Byte>) {
    b == [] ||
    (PKTHDRSIZE < |b| && b[2] in {PKT_READY, PKT_DISPOSED} &&
     var n := Be16(b[0], b[1]);
     0 < n && PKTHDRSIZE + n <= |b| && Decodable(b[PKTHDRSIZE + n..]))
  }

  function Decode(b: seq<Byte>): (ps: seq<Packet>)
    requires Decodable(b)
    ensures AllStorable(ps)
  {
    if b == [] then [] else
      var n := Be16(b[0], b[1]);
      [Packet(b[2] == PKT_DISPOSED, b[PKTHDRSIZE..PKTHDRSIZE + n])] + Decode(b[PKTHDRSIZE + n..])
  }

  lemma {:induction false} DecodeEncode(ps: seq<Packet>)
    requires AllStorable(ps)
    ensures Decodable(Encode(ps)) && Decode(Encode(ps)) == ps
  {
    if ps != [] {
      var b := Encode(ps);
      var n := |ps[0].payload|;
      DecodeEncode(ps[1..]);
      assert Be16(b[0], b[1]) == n;
      assert b[PKTHDRSIZE + n..] == Encode(ps[1..]);
      assert b[PKTHDRSIZE..PKTHDRSIZE + n] == ps[0].payload;
      assert ps == [ps[0]] + ps[1..];
    }
  }

  lemma {:induction false} EncodeDecode(b: seq<Byte>)
    requires Decodable(b)
    ensures Encode(Decode(b)) == b
  {
    if b != [] {
      var n := Be16(b[0], b[1]);
      var rest := Decode(b[PKTHDRSIZE + n..]);
      EncodeDecode(b[PKTHDRSIZE + n..]);
      var p := Packet(b[2] == PKT_DISPOSED, b[PKTHDRSIZE..PKTHDRSIZE + n]);
      assert Decode(b) == [p] + rest;
      EncodeFront(p, rest);
      FrontBlock(b, n);
    }
  }

  lemma EncodeFront(p: Packet, ps: seq<Packet>)
    ensures Encode([p] + ps) == Block(p) + Encode(ps)
  {
    assert ([p] + ps)[1..] == ps;
  }

  /** A block is a function of its bytes: header and payload lie one behind the other. */
  lemma FrontBlock(b: seq<Byte>, n: nat)
    requires |b| > PKTHDRSIZE && b[2] in {PKT_READY, PKT_DISPOSED} && n == Be16(b[0], b[1])
    requires PKTHDRSIZE + n <= |b|
    ensures Block(Packet(b[2] == PKT_DISPOSED, b[PKTHDRSIZE..PKTHDRSIZE + n])) + b[PKTHDRSIZE + n..] == b
  {
    var p := Packet(b[2] == PKT_DISPOSED, b[PKTHDRSIZE..PKTHDRSIZE + n]);
    assert Header(p) == b[..PKTHDRSIZE];
  }

  /** Distance in bytes from the first packet to packet `k`. */
  function Offset(ps: seq<Packet>, k: nat): nat
    requires k <= |ps|
  {
    |Encode(ps[..k])|
  }

  lemma {:induction false} EncodeSplit(a: seq<Packet>, b: seq<Packet>)
    ensures Encode(a + b) == Encode(a) + Encode(b)
  {
    if a == [] {
      assert a + b == b;
    } else {
      EncodeSplit(a[1..], b);
      assert (a + b)[0] == a[0] && (a + b)[1..] == a[1..] + b;
      Associative(Block(a[0]), Encode(a[1..]), Encode(b));
    }
  }

  lemma EncodeOne(p: Packet)
    ensures Encode([p]) == Block(p)
  {
    assert Encode([p]) == Block(p) + Encode([]);
  }

  /** The writer stores a block in four pieces. */
  lemma BlockBytes(e: seq<Byte>, buf: seq<Byte>)
    requires |buf| < 0x1_0000
    ensures e + [|buf| / 256] + [|buf| % 256] + [PKT_READY] + buf == e + Block(Packet(false, buf))
  {
  }

  /** Packet `k` among the encoded bytes: what precedes it, its own block, what follows. */
  lemma EncodeAround(ps: seq<Packet>, k: nat)
    requires k < |ps|
    ensures Encode(ps) == Encode(ps[..k]) + (Block(ps[k]) + Encode(ps[k + 1..]))
    ensures Offset(ps, k + 1) == Offset(ps, k) + |Block(ps[k])| <= |Encode(ps)|
  {
    assert ps == ps[..k] + ps[k..];
    EncodeSplit(ps[..k], ps[k..]);
    assert ps[k..][1..] == ps[k + 1..];
    assert ps[..k + 1] == ps[..k] + [ps[k]];
    EncodeSplit(ps[..k], [ps[k]]);
    EncodeOne(ps[k]);
  }

  lemma EncodedByte(ps: seq<Packet>, k: nat, i: nat)
    requires k < |ps| && i < |Block(ps[k])|
    ensures Offset(ps, k) + i < |Encode(ps)|
    ensures Encode(ps)[Offset(ps, k) + i] == Block(ps[k])[i]
  {
    EncodeAround(ps, k);
  }

  lemma EncodedTail(ps: seq<Packet>, k: nat)
    requires k <= |ps|
    ensures Offset(ps, k) <= |Encode(ps)| && Encode(ps)[Offset(ps, k)..] == Encode(ps[k..])
  {
    assert ps == ps[..k] + ps[k..];
    EncodeSplit(ps[..k], ps[k..]);
  }

  lemma FirstPktIndex(ps: seq<Packet>, r: nat, size: nat)
    requires r < size && |Encode(ps)| < size
    ensures PktIndex(ps, r, size, 0) == r
  {
  }

  lemma OffsetEnd(ps: seq<Packet>)
    ensures Offset(ps, |ps|) == |Encode(ps)|
  {
    assert ps[..|ps|] == ps;
  }

  lemma OffsetBound(ps: seq<Packet>, k: nat)
    requires k <= |ps|
    ensures Offset(ps, k) <= |Encode(ps)|
  {
    EncodedTail(ps, k);
  }

  /** More than a header's worth of bytes follows offset `k` exactly when packet `k` exists. */
  lemma MoreThanHeader(ps: seq<Packet>, k: nat)
    requires AllStorable(ps) && k <= |ps|
    ensures Offset(ps, k) <= |Encode(ps)|
    ensures |Encode(ps)| - Offset(ps, k) > PKTHDRSIZE <==> k < |ps|
  {
    if k < |ps| {
      EncodeAround(ps, k);
    } else {
      OffsetEnd(ps);
    }
  }

  /** Only payload lengths matter for where packets lie. */
  lemma {:induction false} SameLengths(a: seq<Packet>, b: seq<Packet>)
    requires |a| == |b|
    requires forall i :: 0 <= i < |a| ==> |a[i].payload| == |b[i].payload|
    ensures |Encode(a)| == |Encode(b)|
  {
    if a != [] {
      SameLengths(a[1..], b[1..]);
    }
  }

  function Marked(ps: seq<Packet>, k: nat): seq<Packet>
    requires k < |ps|
  {
    ps[k := ps[k].(disposed := true)]
  }

  /** Marking packet `k` rewrites its status byte and moves nothing. */
  lemma EncodeMarked(ps: seq<Packet>, k: nat)
    requires k < |ps|
    ensures var marked := Marked(ps, k);
            && Offset(ps, k) + 2 < |Encode(ps)|
            && Encode(marked) == Encode(ps)[Offset(ps, k) + 2 := PKT_DISPOSED]
            && forall j :: 0 <= j <= |ps| ==> Offset(marked, j) == Offset(ps, j)
  {
    var p := ps[k].(disposed := true);
    var marked := ps[k := p];
    EncodeAround(ps, k);
    EncodeAround(marked, k);
    assert marked[..k] == ps[..k] && marked[k + 1..] == ps[k + 1..];
    assert Block(p) == Block(ps[k])[2 := PKT_DISPOSED];
    UpdateMiddle(Encode(ps[..k]), Block(ps[k]), Encode(ps[k + 1..]), 2, PKT_DISPOSED);
    forall j | 0 <= j <= |ps| ensures Offset(marked, j) == Offset(ps, j) {
      SameLengths(ps[..j], marked[..j]);
    }
  }

  lemma UpdateMiddle(a: seq<Byte>, b: seq<Byte>, c: seq<Byte>, i: nat, v: Byte)
    requires i < |b|
    ensures (a + (b + c))[|a| + i := v] == a + (b[i := v] + c)
  {
  }

  /** Offsets into the list left after dropping `n` packets. */
  lemma OffsetAfterDrop(ps: seq<Packet>, n: nat, j: nat)
    requires n + j <= |ps|
    ensures Offset(ps, n + j) == Offset(ps, n) + Offset(ps[n..], j)
  {
    assert ps[..n + j] == ps[..n] + ps[n..][..j];
    EncodeSplit(ps[..n], ps[n..][..j]);
  }

  /** Array index of packet `k` in a ring of `size` bytes read from `r`. */
  function PktIndex(ps: seq<Packet>, r: nat, size: nat, k: nat): (i: nat)
    requires r < size && |Encode(ps)| < size && k <= |ps|
    ensures i < size
  {
    OffsetBound(ps, k);
    Wrap(r + Offset(ps, k), size)
  }

  lemma PktIndexNext(ps: seq<Packet>, r: nat, size: nat, k: nat)
    requires r < size && |Encode(ps)| < size && k < |ps|
    ensures |Block(ps[k])| <= |Encode(ps)|
    ensures PktIndex(ps, r, size, k + 1) == Wrap(PktIndex(ps, r, size, k) + |Block(ps[k])|, size)
  {
    EncodeAround(ps, k);
  }

  /** A packet that survives the dropping of `n` packets keeps its index. */
  lemma PktIndexAfterDrop(ps: seq<Packet>, k: nat, r: nat, size: nat, n: nat, j: nat)
    requires r < size && |Encode(ps)| < size && k < |ps| && n + j <= |ps|
    ensures |Encode(Marked(ps, k))| == |Encode(ps)| && |Encode(Marked(ps, k)[n..])| <= |Encode(ps)|
    ensures PktIndex(Marked(ps, k)[n..], PktIndex(Marked(ps, k), r, size, n), size, j) == PktIndex(ps, r, size, n + j)
  {
    var marked := Marked(ps, k);
    EncodeMarked(ps, k);
    EncodedTail(marked, n);
    OffsetAfterDrop(marked, n, j);
    OffsetBound(marked, n + j);
  }

  /** The list without its leading run of disposed packets. */
  function DropDisposed(ps: seq<Packet>): seq<Packet> {
    if ps != [] && ps[0].disposed then DropDisposed(ps[1..]) else ps
  }

  /** How long that leading run is. */
  function DisposedRun(ps: seq<Packet>): nat {
    if ps != [] && ps[0].disposed then 1 + DisposedRun(ps[1..]) else 0
  }

  lemma OneMoreDisposed(ps: seq<Packet>, n: nat)
    requires n < |ps|
    ensures ps[n..][1..] == ps[n + 1..]
    ensures ps[n].disposed ==> DropDisposed(ps[n..]) == DropDisposed(ps[n + 1..])
    ensures ps[n].disposed ==> DisposedRun(ps[n..]) == 1 + DisposedRun(ps[n + 1..])
    ensures !ps[n].disposed ==> DropDisposed(ps[n..]) == ps[n..] && DisposedRun(ps[n..]) == 0
  {
    assert ps[n..][1..] == ps[n + 1..];
  }

  lemma NoneDisposed()
    ensures DropDisposed([]) == [] && DisposedRun([]) == 0
  {
  }

  /** Exactly the longest disposed prefix goes. */
  lemma {:induction false} DropDisposedIsLongestPrefix(ps: seq<Packet>)
    ensures var n := DisposedRun(ps);
            && n <= |ps| && DropDisposed(ps) == ps[n..]
            && (forall i :: 0 <= i < n ==> ps[i].disposed)
            && (n < |ps| ==> !ps[n].disposed)
  {
    if ps != [] && ps[0].disposed {
      DropDisposedIsLongestPrefix(ps[1..]);
      var n := DisposedRun(ps[1..]);
      assert ps[1..][n..] == ps[n + 1..];
      forall i | 0 <= i < n + 1 ensures ps[i].disposed {
        if i > 0 { assert ps[i] == ps[1..][i - 1]; }
      }
    }
  }

  /** The first packet at or after `k` that is still to be read; |ps| when there is none. */
  function NextReady(ps: seq<Packet>, k: nat): (j: nat)
    requires k <= |ps|
    ensures k <= j <= |ps|
    ensures j < |ps| ==> !ps[j].disposed
    ensures forall i :: k <= i < j ==> ps[i].disposed
    decreases |ps| - k
  {
    if k < |ps| && ps[k].disposed then NextReady(ps, k + 1) else k
  }

  // ---------------------------------------------------------------------------------------------
  // The ring object
  // ---------------------------------------------------------------------------------------------

  class DvbRingbuffer {
    const data: array<Byte>
    var pread: nat
    var pwrite: nat
    var error: int

    ghost predicate Valid()
      reads this
    {
      pread < data.Length && pwrite < data.Length
    }

    ghost function Bytes(): seq<Byte>
      requires Valid()
      reads this, data
    {
      Unread(data[..], pread, pwrite)
    }

    /** The ring is in use as a packet ring. */
    ghost predicate HoldsPackets()
      reads this, data
    {
      Valid() && Decodable(Bytes())
    }

    ghost function Packets(): seq<Packet>
      requires HoldsPackets()
      reads this, data
    {
      Decode(Bytes())
    }

    /** Array index of packet `k`: what pkt_next hands out and pkt_read and pkt_dispose take. */
    ghost function IndexOf(k: nat): (i: nat)
      requires HoldsPackets() && k <= |Packets()|
      reads this, data
      ensures i < data.Length
    {
      EncodeDecode(Bytes());
      PktIndex(Packets(), pread, data.Length, k)
    }

    constructor (data: array<Byte>)
      requires data.Length > 0
      ensures this.data == data && Valid() && Bytes() == [] && error == 0
      ensures HoldsPackets() && Packets() == []
    {
      this.data := data;
      pread, pwrite := 0, 0;
      error := 0;
    }

    method Empty() returns (e: bool)
      requires Valid()
      ensures e <==> Bytes() == []
    {
      e := pread == pwrite;
    }

    /** One slot always stays empty: what is free and what is unread add up to size - 1. */
    method Free() returns (free: int)
      requires Valid()
      ensures free + |Bytes()| == data.Length - 1
    {
      free := pread - pwrite;
      if free <= 0 { free := free + data.Length; }
      return free - 1;
    }

    method Avail() returns (avail: int)
      requires Valid()
      ensures avail == |Bytes()|
    {
      avail := pwrite - pread;
      if avail < 0 { avail := avail + data.Length; }
    }

    method Flush()
      requires Valid()
      modifies this
      ensures Valid() && Bytes() == [] && pwrite == old(pwrite) && error == 0
    {
      pread := pwrite;
      error := 0;
    }

    method Reset()
      requires Valid()
      modifies this
      ensures Valid() && Bytes() == [] && pread == 0 && error == 0
    {
      pread := 0;
      pwrite := 0;
      error := 0;
    }

    method Read(len: nat) returns (buf: seq<Byte>)
      requires Valid() && len <= |Bytes()|
      modifies this`pread
      ensures Valid()
      ensures buf == old(Bytes())[..len] && Bytes() == old(Bytes())[len..]
    {
      hide Unread;
      var todo := len;
      var split := if pread + len > data.Length then data.Length - pread else 0;
      buf := [];
      ghost var q := Bytes();
      if split > 0 {
        buf := Fetch(split);
        todo := todo - split;
        UnreadSkip(data[..], pread, pwrite, split);
        pread := 0;
      }
      var tail := Fetch(todo);
      TakeInTwo(q, split, len);
      buf := buf + tail;
      UnreadSkip(data[..], pread, pwrite, todo);
      ModIsWrap(pread + todo, data.Length);
      pread := (pread + todo) % data.Length;
    }

    /** memcpy from the read pointer, which the caller then moves. */
    method Fetch(n: nat) returns (s: seq<Byte>)
      requires Valid() && pread + n <= data.Length && n <= |Bytes()|
      ensures s == Bytes()[..n]
    {
      s := data[pread..pread + n];
    }

    method Write(buf: seq<Byte>) returns (n: int)
      requires Valid() && |Bytes()| + |buf| < data.Length
      modifies this`pwrite, data
      ensures Valid() && n == |buf|
      ensures Bytes() == old(Bytes()) + buf
    {
      hide Unread;
      var todo := buf;
      var split := if pwrite + |buf| > data.Length then data.Length - pwrite else 0;
      ghost var stored := Bytes();
      if split > 0 {
        Store(buf[..split]);
        pwrite := 0;
        todo := buf[split..];
        stored := stored + buf[..split];
      }
      AppendRest(old(Bytes()), buf, split);
      assert Bytes() == stored;
      Store(todo);
      ModIsWrap(pwrite + |todo|, data.Length);
      pwrite := (pwrite + |todo|) % data.Length;
      n := |buf|;
    }

    static lemma AppendRest(q: seq<Byte>, buf: seq<Byte>, split: nat)
      requires split <= |buf|
      ensures (q + buf[..split]) + buf[split..] == q + buf
    {
    }

    /** memcpy to the write pointer, which the caller then moves. */
    method Store(s: seq<Byte>)
      requires Valid() && pwrite + |s| <= data.Length && |Bytes()| + |s| < data.Length
      modifies data
      ensures Valid()
      ensures Unread(data[..], pread, Wrap(pwrite + |s|, data.Length)) == old(Bytes()) + s
    {
      ghost var d := data[..];
      forall i | 0 <= i < |s| { data[pwrite + i] := s[i]; }
      UnreadStore(d, data[..], pread, pwrite, s);
    }

    method WriteByte(b: Byte)
      requires Valid() && |Bytes()| + 1 < data.Length
      modifies this`pwrite, data
      ensures Valid() && Bytes() == old(Bytes()) + [b]
    {
      ghost var d := data[..];
      data[pwrite] := b;
      UnreadStore(d, data[..], pread, pwrite, [b]);
      ModIsWrap(pwrite + 1, data.Length);
      pwrite := (pwrite + 1) % data.Length;
    }

    /** DVB_RINGBUFFER_PEEK */
    method Peek(offs: nat) returns (b: Byte)
      requires Valid() && offs < |Bytes()|
      ensures b == Bytes()[offs]
    {
      ModIsWrap(pread + offs, data.Length);
      UnreadAt(data[..], pread, pwrite, offs);
      b := data[(pread + offs) % data.Length];
    }

    // -------------------------------------------------------------------------------------------
    // Packets
    // -------------------------------------------------------------------------------------------

    /** Appends one packet; no other packet moves. */
    method PktWrite(buf: seq<Byte>) returns (status: int)
      requires HoldsPackets() && 0 < |buf| < 0x1_0000
      requires |Bytes()| + PKTHDRSIZE + |buf| < data.Length
      modifies this`pwrite, data
      ensures HoldsPackets() && status == |buf|
      ensures Packets() == old(Packets()) + [Packet(false, buf)]
    {
      ghost var ps, p := Packets(), Packet(false, buf);
      EncodeDecode(Bytes());
      WriteByte(|buf| / 256);
      WriteByte(|buf| % 256);
      WriteByte(PKT_READY);
      status := Write(buf);
      BlockBytes(Encode(ps), buf);
      EncodeOne(p);
      EncodeSplit(ps, [p]);
      DecodeEncode(ps + [p]);
    }

    /** The two length bytes at `idx`. */
    method LengthAt(idx: nat, ghost k: nat) returns (pktlen: nat)
      requires HoldsPackets() && k < |Packets()| && idx == IndexOf(k)
      ensures pktlen == |Packets()[k].payload|
    {
      PacketByte(k, 0);
      PacketByte(k, 1);
      ModIsWrap(idx + 1, data.Length);
      pktlen := Be16(data[idx], data[(idx + 1) % data.Length]);
    }

    method StatusAt(idx: nat, ghost k: nat) returns (status: Byte)
      requires HoldsPackets() && k < |Packets()| && idx == IndexOf(k)
      ensures status == PKT_READY <==> !Packets()[k].disposed
    {
      PacketByte(k, 2);
      ModIsWrap(idx + 2, data.Length);
      status := data[(idx + 2) % data.Length];
    }

    /** Index of the packet after the one at `idx`. */
    method IndexAfter(idx: nat, pktlen: nat, ghost k: nat) returns (next: nat)
      requires HoldsPackets() && k < |Packets()| && idx == IndexOf(k)
      requires pktlen == |Packets()[k].payload|
      ensures next == IndexOf(k + 1)
    {
      EncodeDecode(Bytes());
      PktIndexNext(Packets(), pread, data.Length, k);
      ModIsWrap(idx + pktlen + PKTHDRSIZE, data.Length);
      next := (idx + pktlen + PKTHDRSIZE) % data.Length;
    }

    /** Byte `i` of packet `k` sits `i` places after the packet's index, modulo the size. */
    lemma PacketByte(k: nat, i: nat)
      requires HoldsPackets() && k < |Packets()| && i < |Block(Packets()[k])|
      ensures i < data.Length
      ensures data[Wrap(IndexOf(k) + i, data.Length)] == Block(Packets()[k])[i]
    {
      hide Decodable, Decode, Encode, Block, Unread;
      EncodeDecode(Bytes());
      EncodedByte(Packets(), k, i);
      UnreadAt(data[..], pread, pwrite, Offset(Packets(), k) + i);
    }

    /** At most `len` payload bytes of packet `k` from `offset` on, across the wrap if need be. */
    method PktRead(idx: nat, offset: int, len: nat, ghost k: nat) returns (n: int, buf: seq<Byte>)
      requires HoldsPackets() && k < |Packets()| && idx == IndexOf(k)
      ensures var payload := Packets()[k].payload;
              if 0 <= offset <= |payload|
              then buf == payload[offset..Min(offset + len, |payload|)] && n == |buf|
              else n == -EINVAL && buf == []
    {
      hide Decodable, Decode, Encode;
      ghost var payload := Packets()[k].payload;
      var pktlen := LengthAt(idx, k);
      // a negative offset turns into a huge unsigned number in the comparison
      if offset < 0 || offset > pktlen { return -EINVAL, []; }
      var want := if offset + len > pktlen then pktlen - offset else len;
      BlockFits(k);
      ModIsWrap(idx + PKTHDRSIZE + offset, data.Length);
      buf := CopyOut((idx + PKTHDRSIZE + offset) % data.Length, want, k, PKTHDRSIZE + offset);
      n := want;
      PayloadInBlock(Packets()[k], offset, want);
    }

    /** Copies `want` bytes of packet `k` from array index `at` on, in two pieces at the wrap. */
    method CopyOut(at: nat, want: nat, ghost k: nat, ghost from: nat) returns (buf: seq<Byte>)
      requires HoldsPackets() && k < |Packets()| && from + want <= |Block(Packets()[k])| < data.Length
      requires at == Wrap(IndexOf(k) + from, data.Length)
      ensures buf == Block(Packets()[k])[from..from + want]
    {
      hide Decodable, Decode, Encode, Unread;
      var split := if at + want > data.Length then data.Length - at else 0;
      if split > 0 {
        BlockSegment(k, from, at, split);
        BlockSegment(k, from + split, 0, want - split);
        return data[at..at + split] + data[..want - split];
      }
      BlockSegment(k, from, at, want);
      buf := data[at..at + want];
    }

    static lemma PayloadInBlock(p: Packet, offset: nat, want: nat)
      requires offset + want <= |p.payload|
      ensures Block(p)[PKTHDRSIZE + offset..PKTHDRSIZE + offset + want] == p.payload[offset..offset + want]
    {
    }

    /** A stretch of packet `k` that does not wrap, as it lies in the array. */
    lemma BlockSegment(k: nat, i: nat, at: nat, n: nat)
      requires HoldsPackets() && k < |Packets()| && i + n <= |Block(Packets()[k])| < data.Length
      requires at == Wrap(IndexOf(k) + i, data.Length) && at + n <= data.Length
      ensures data[at..at + n] == Block(Packets()[k])[i..i + n]
    {
      hide Decodable, Decode, Encode;
      var segment, block := data[at..at + n], Block(Packets()[k]);
      forall m | 0 <= m < n ensures segment[m] == block[i..i + n][m] {
        PacketByte(k, i + m);
      }
    }

    /**
     * First packet still to be read: from the front when `start` is -1, otherwise after packet `k`,
     * whose index `start` is. -1 when there is none.
     */
    method PktNext(start: int, ghost k: nat) returns (next: int, pktlen: nat)
      requires HoldsPackets()
      requires start == -1 || (k < |Packets()| && start == IndexOf(k))
      ensures var j := NextReady(Packets(), if start == -1 then 0 else k + 1);
              if j < |Packets()| then next == IndexOf(j) && pktlen == |Packets()[j].payload|
              else next == -1
    {
      hide Decodable, Decode, Encode;
      ghost var ps := Packets();
      var idx := start;
      ghost var j: nat := 0;
      var curpktlen;
      if idx == -1 {
        idx := pread;
      } else {
        curpktlen := LengthAt(idx, k);
        idx := IndexAfter(idx, curpktlen, k);
        j := k + 1;
      }
      ghost var first := j;
      ConsumedIsOffset(j);
      var consumed := idx - pread;
      if consumed < 0 { consumed := consumed + data.Length; }
      var avail := Avail();
      while avail - consumed > PKTHDRSIZE
        invariant j <= |ps| && idx == IndexOf(j)
        invariant consumed == Offset(ps, j)
        invariant NextReady(ps, j) == NextReady(ps, first)
        decreases avail - consumed
      {
        MorePackets(j);
        curpktlen := LengthAt(idx, j);
        var curpktstatus := StatusAt(idx, j);
        if curpktstatus == PKT_READY {
          return idx, curpktlen;
        }
        EncodeAround(ps, j);
        consumed := consumed + curpktlen + PKTHDRSIZE;
        idx := IndexAfter(idx, curpktlen, j);
        j := j + 1;
      }
      MorePackets(j);
      next, pktlen := -1, 0;
    }

    lemma BlockFits(k: nat)
      requires HoldsPackets() && k < |Packets()|
      ensures |Block(Packets()[k])| < data.Length
    {
      EncodeDecode(Bytes());
      EncodeAround(Packets(), k);
    }

    lemma MorePackets(j: nat)
      requires HoldsPackets() && j <= |Packets()|
      ensures |Bytes()| - Offset(Packets(), j) > PKTHDRSIZE <==> j < |Packets()|
    {
      EncodeDecode(Bytes());
      MoreThanHeader(Packets(), j);
    }

    /** The distance from the read pointer, taken modulo the size, is the offset in the list. */
    lemma ConsumedIsOffset(j: nat)
      requires HoldsPackets() && j <= |Packets()|
      ensures var c := IndexOf(j) - pread;
              Offset(Packets(), j) == if c < 0 then c + data.Length else c
      ensures j == 0 ==> IndexOf(j) == pread
    {
      EncodeDecode(Bytes());
      MoreThanHeader(Packets(), j);
    }

    /** With more than a header unread there is a front packet, and it starts the queue. */
    lemma FrontBytes()
      requires HoldsPackets() && |Bytes()| > PKTHDRSIZE
      ensures Packets() != [] && Bytes() == Block(Packets()[0]) + Encode(Packets()[1..])
    {
      EncodeDecode(Bytes());
    }

    /** Moves the read pointer past the front packet. */
    method SkipFront()
      requires HoldsPackets() && |Bytes()| > PKTHDRSIZE
      modifies this`pread
      ensures HoldsPackets() && Packets() == old(Packets())[1..]
      ensures |Bytes()| < old(|Bytes()|)
      ensures pread == Wrap(old(pread) + old(|Block(Packets()[0])|), data.Length)
    {
      hide Decodable, Decode, Encode, Unread;
      FrontBytes();
      var hi := Peek(0);
      var lo := Peek(1);
      var pktlen := Be16(hi, lo);
      ghost var rest := Packets()[1..];
      UnreadSkip(data[..], pread, pwrite, pktlen + PKTHDRSIZE);
      ModIsWrap(pread + pktlen + PKTHDRSIZE, data.Length);
      pread := (pread + (pktlen + PKTHDRSIZE)) % data.Length;
      DecodeEncode(rest);
    }

    /** Rewrites the status byte of packet `k`. */
    method MarkDisposed(idx: nat, ghost k: nat)
      requires HoldsPackets() && k < |Packets()| && idx == IndexOf(k)
      modifies data
      ensures HoldsPackets()
      ensures Packets() == Marked(old(Packets()), k)
    {
      hide Decodable, Decode, Encode;
      ghost var ps, d, o := Packets(), data[..], Offset(Packets(), k);
      EncodeDecode(Bytes());
      EncodeMarked(ps, k);
      ModIsWrap(idx + 2, data.Length);
      data[(idx + 2) % data.Length] := PKT_DISPOSED;
      UnreadUpdate(d, pread, pwrite, o + 2, PKT_DISPOSED);
      assert data[..] == d[Wrap(pread + (o + 2), data.Length) := PKT_DISPOSED];
      DecodeEncode(Marked(ps, k));
    }

    /** The clean up loop: frees the disposed packets at the front. */
    method CleanUp()
      requires HoldsPackets()
      modifies this`pread
      ensures HoldsPackets() && Packets() == DropDisposed(old(Packets()))
      ensures |Encode(old(Packets()))| < data.Length && DisposedRun(old(Packets())) <= |old(Packets())|
      ensures pread == PktIndex(old(Packets()), old(pread), data.Length, DisposedRun(old(Packets())))
    {
      hide Decodable, Decode, Encode, Unread, PktIndex, DropDisposed, DisposedRun;
      ghost var ps, r0 := Packets(), pread;
      EncodeDecode(Bytes());
      DropDisposedIsLongestPrefix(ps);
      FirstPktIndex(ps, r0, data.Length);
      ghost var n := 0;
      var avail := Avail();
      while avail > PKTHDRSIZE
        invariant HoldsPackets() && n <= |ps| && Packets() == ps[n..]
        invariant avail == |Bytes()|
        invariant pread == PktIndex(ps, r0, data.Length, n)
        invariant DropDisposed(ps[n..]) == DropDisposed(ps)
        invariant n + DisposedRun(ps[n..]) == DisposedRun(ps)
        decreases avail
      {
        FrontBytes();
        var status := Peek(2);
        OneMoreDisposed(ps, n);
        if status != PKT_DISPOSED { break; }
        PktIndexNext(ps, r0, data.Length, n);
        SkipFront();
        n := n + 1;
        avail := Avail();
      }
      MorePackets(0);
      NoneDisposed();
    }

    /**
     * Marks packet `k` and frees the longest disposed prefix. Every packet that stays keeps its
     * index, though its position in the list drops by the number freed.
     */
    method PktDispose(idx: nat, ghost k: nat)
      requires HoldsPackets() && k < |Packets()| && idx == IndexOf(k)
      modifies this`pread, data
      ensures HoldsPackets()
      ensures Packets() == DropDisposed(Marked(old(Packets()), k))
      ensures DisposedRun(Marked(old(Packets()), k)) + |Packets()| == |old(Packets())|
      ensures forall j :: 0 <= j <= |Packets()| ==>
                IndexOf(j) == old(IndexOf(j + DisposedRun(Marked(Packets(), k))))
    {
      hide Decodable, Decode, Encode, Unread, PktIndex, DropDisposed, DisposedRun;
      ghost var ps, r0, n := Packets(), pread, DisposedRun(Marked(Packets(), k));
      EncodeDecode(Bytes());
      DropDisposedIsLongestPrefix(Marked(ps, k));
      MarkDisposed(idx, k);
      CleanUp();
      forall j | 0 <= j <= |Packets()|
        ensures IndexOf(j) == old(IndexOf(j + DisposedRun(Marked(Packets(), k))))
      {
        PktIndexAfterDrop(ps, k, r0, data.Length, n, j);
      }
    }
  }
}
