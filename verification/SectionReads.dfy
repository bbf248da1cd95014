/**
 * Reading sections through neumo-dmxdev.c: the callback queues whole sections in a byte ring, and
 * reads of any size give them back without ever mixing two of them.
 */
module SectionReads {
  import opened Bytes
  import opened Ringbuffer
  import opened SectionDemux

  const EWOULDBLOCK := 11
  const EOVERFLOW := 75
  const HEADER_SIZE := 3

  /** What a read starts with: the section already begun, or else the first one queued. */
  function Current(rest: seq<Byte>, queue: seq<seq<Byte>>): seq<Byte> {
    if rest != [] then rest else if queue != [] then queue[0] else []
  }

  lemma CurrentFirst(rest: seq<Byte>, queue: seq<seq<Byte>>)
    requires AllSections(queue)
    ensures var cur := Current(rest, queue);
            && |cur| <= |rest + Concat(queue)| && (rest + Concat(queue))[..|cur|] == cur
            && (rest + Concat(queue))[|cur|..] == Concat(if rest == [] && queue != [] then queue[1..] else queue)
    ensures Current(rest, queue) == [] ==> rest + Concat(queue) == []
  {
  }

  /** `todo` and the header bytes kept are in step with what is left of the section `current`. */
  predicate InStep(todo: int, rest: seq<Byte>, current: seq<Byte>, kept: seq<Byte>)
    requires |kept| == HEADER_SIZE
  {
    if todo > 0 then |rest| == todo
    else
      || (todo == 0 && rest == [])
      || (&& IsSection(current) && -HEADER_SIZE < todo && kept[..-todo] == current[..-todo] && rest == current[-todo..])
  }

  /** While the header is being read there is at least the rest of it. */
  lemma HeaderLeft(todo: int, rest: seq<Byte>, current: seq<Byte>, kept: seq<Byte>)
    requires |kept| == HEADER_SIZE && InStep(todo, rest, current, kept) && todo <= 0
    ensures -HEADER_SIZE < todo && (rest != [] ==> |rest| >= HEADER_SIZE + todo)
  {
  }

  lemma BodyLeft(todo: int, rest: seq<Byte>, current: seq<Byte>, kept: seq<Byte>)
    requires |kept| == HEADER_SIZE && InStep(todo, rest, current, kept)
    ensures todo > 0 ==> |rest| == todo
  {
  }

  lemma BodyGoesOn(todo: int, rest: seq<Byte>, current: seq<Byte>, kept: seq<Byte>, n: nat)
    requires |kept| == HEADER_SIZE && todo == |rest| && n <= todo
    ensures InStep(todo - n, rest[n..], current, kept)
  {
  }

  lemma NothingBegun(current: seq<Byte>, kept: seq<Byte>)
    requires |kept| == HEADER_SIZE
    ensures InStep(0, [], current, kept)
  {
  }

  /** `n` more bytes of the header, or all that is left of it. */
  lemma HeaderGoesOn(todo: int, rest: seq<Byte>, current: seq<Byte>, kept: seq<Byte>, n: nat, kept': seq<Byte>)
    requires |kept| == |kept'| == HEADER_SIZE && InStep(todo, rest, current, kept) && todo <= 0
    requires n <= |rest| && n <= HEADER_SIZE + todo && kept'[..-todo + n] == kept[..-todo] + rest[..n]
    ensures todo - n > -HEADER_SIZE ==> InStep(todo - n, rest[n..], current, kept')
    ensures todo - n == -HEADER_SIZE ==>
              var len := Be16(kept'[1], kept'[2]) % 0x1000;
              len == |rest[n..]| && InStep(len, rest[n..], current, kept')
  {
    var at := -todo;
    if rest != [] {
      assert kept[..at] + rest[..n] == current[..at + n] && rest[n..] == current[at + n..];
      if at + n == HEADER_SIZE {
        LengthField(current);
        assert kept' == kept'[..HEADER_SIZE] == current[..HEADER_SIZE];
        assert kept'[1] == current[..HEADER_SIZE][1] && kept'[2] == current[..HEADER_SIZE][2];
      }
    }
  }

  class DmxdevFilter {
    const buffer: DvbRingbuffer
    const secheader: array<Byte>
    /** Body bytes still to be read; 0 or below, less the header bytes read already. */
    var todo: int
    /** The section being read, what is left of it in the buffer, and the sections behind it. */
    ghost var current: seq<Byte>
    ghost var rest: seq<Byte>
    ghost var queue: seq<seq<Byte>>

    ghost predicate Separate()
      reads this
    {
      secheader != buffer.data && secheader.Length == HEADER_SIZE && AllSections(queue)
    }

    ghost predicate Aligned()
      requires secheader.Length == HEADER_SIZE
      reads this, secheader
    {
      InStep(todo, rest, current, secheader[..])
    }

    ghost predicate Valid()
      reads this, secheader, buffer, buffer.data
    {
      Separate() && Aligned() && buffer.Valid() && buffer.Bytes() == rest + Concat(queue)
    }

    constructor (buffer: DvbRingbuffer)
      requires buffer.Valid() && buffer.Bytes() == []
      ensures Valid() && this.buffer == buffer && rest == [] && queue == [] && todo == 0 && fresh(secheader)
    {
      this.buffer, secheader, todo := buffer, new Byte[HEADER_SIZE], 0;
      current, rest, queue := [], [], [];
    }

    /** dvb_dmxdev_buffer_write */
    method BufferWrite(src: seq<Byte>) returns (ret: int)
      requires buffer.Valid()
      modifies buffer`pwrite, buffer.data
      ensures buffer.Valid()
      ensures if src != [] && |old(buffer.Bytes())| + |src| >= buffer.data.Length then
                ret == -EOVERFLOW && buffer.Bytes() == old(buffer.Bytes())
              else ret == |src| && buffer.Bytes() == old(buffer.Bytes()) + src
    {
      if |src| == 0 {
        assert src == [] && buffer.Bytes() + src == buffer.Bytes();
        return 0;
      }
      var free := buffer.Free();
      if |src| > free { return -EOVERFLOW; }
      ret := buffer.Write(src);
    }

    /** dvb_dmxdev_section_callback, for a filter that is running: a section is queued whole or not at all. */
    method SectionCallback(section: seq<Byte>)
      requires Valid() && IsSection(section)
      modifies this`queue, buffer, buffer.data
      ensures Valid() && rest == old(rest)
      ensures old(buffer.error) != 0 ==> queue == old(queue) && buffer.error == old(buffer.error)
      ensures old(buffer.error) == 0 ==>
                if |old(buffer.Bytes())| + |section| < buffer.data.Length then queue == old(queue) + [section] && buffer.error == 0
                else queue == old(queue) && buffer.error == -EOVERFLOW
    {
      if buffer.error != 0 { return; }
      var ret := BufferWrite(section);
      if ret < 0 {
        buffer.error := ret;
      } else {
        QueueMore(rest, queue, section);
        queue := queue + [section];
      }
    }

    /**
     * dvb_dmxdev_buffer_read. When blocking, what has been asked for is there by the time the waits
     * are over. A negative `ret` is an error; otherwise it is the length of `buf`.
     */
    method BufferRead(nonBlocking: bool, count: nat) returns (ret: int, buf: seq<Byte>)
      requires buffer.Valid() && (nonBlocking || buffer.error != 0 || count <= |buffer.Bytes()|)
      modifies buffer
      ensures buffer.Valid()
      ensures old(buffer.error) != 0 ==> ret == old(buffer.error) && buf == [] && buffer.Bytes() == [] && buffer.error == 0
      ensures old(buffer.error) == 0 ==>
                var n := Min(count, |old(buffer.Bytes())|);
                && buf == old(buffer.Bytes())[..n] && buffer.Bytes() == old(buffer.Bytes())[n..] && buffer.error == 0
                && ret == if n == 0 && count > 0 then -EWOULDBLOCK else n
    {
      buf := [];
      if buffer.error != 0 {
        ret := buffer.error;
        buffer.Flush();
        return;
      }
      ghost var q := buffer.Bytes();
      var todo := count;
      ret := 0;
      assert q[..0] == [] && q[0..] == q;
      while todo > 0
        invariant 0 <= todo <= count && count - todo == |buf| <= |q| && buffer.Valid() && buffer.error == 0
        invariant buf == q[..|buf|] && buffer.Bytes() == q[|buf|..]
        invariant buf == [] ==> ret == 0
      {
        var empty := buffer.Empty();
        if nonBlocking && empty {
          ret := -EWOULDBLOCK;
          break;
        }
        var avail := buffer.Avail();
        if avail > todo { avail := todo; }
        TakeInTwo(q, |buf|, |buf| + avail);
        var more := buffer.Read(avail);
        ret := |more|;
        buf := buf + more;
        todo := todo - ret;
      }
      if count - todo != 0 { ret := count - todo; }
    }

    /** The next section becomes the current one. */
    ghost method Advance()
      requires Valid()
      modifies `current, `rest, `queue
      ensures Valid() && rest == Current(old(rest), old(queue))
      ensures queue == if old(rest) == [] && old(queue) != [] then old(queue)[1..] else old(queue)
      ensures rest == [] ==> buffer.Bytes() == []
    {
      CurrentFirst(rest, queue);
      if rest == [] && queue != [] {
        assert secheader[..][..0] == [] && queue[0][..0] == [] && queue[0][0..] == queue[0];
        current, rest, queue := queue[0], queue[0], queue[1..];
      }
    }

    /** `n` bytes of what is left of the section are taken out of the buffer, if there is anything. */
    method Take(nonBlocking: bool, n: nat) returns (ret: int, buf: seq<Byte>)
      requires Separate() && buffer.Valid() && buffer.Bytes() == rest + Concat(queue) && buffer.error == 0
      requires n <= |rest| || (nonBlocking && buffer.Bytes() == [])
      modifies buffer, `rest
      ensures Separate() && buffer.Valid() && buffer.Bytes() == rest + Concat(queue) && buffer.error == 0
      ensures n <= |old(rest)| ==> ret == n && buf == old(rest)[..n] && rest == old(rest)[n..]
      ensures n > |old(rest)| ==> ret == -EWOULDBLOCK && buf == [] && rest == old(rest) == []
    {
      ret, buf := BufferRead(nonBlocking, n);
      if n <= |rest| { FrontOf(rest, Concat(queue), n); }
      rest := rest[Min(n, |rest|)..];
    }

    /**
     * The first part of dvb_dmxdev_read_sec: the header, or as much of it as is asked for. The rest
     * follows in the same read if it is `complete`; not `ok` is an error the read returns at once.
     */
    method ReadHeader(nonBlocking: bool, count: nat) returns (ok: bool, complete: bool, buf: seq<Byte>)
      requires Valid() && todo <= 0 && buffer.error == 0 && (rest == [] ==> nonBlocking && buffer.Bytes() == [])
      modifies this`todo, this`rest, buffer, secheader
      ensures Valid() && buffer.error == 0
      ensures ok == (old(rest) != [] || count == 0)
      ensures !ok ==> buf == [] && rest == [] && todo == 0
      ensures ok ==> |buf| == (if old(rest) == [] then 0 else Min(count, HEADER_SIZE + old(todo))) && |buf| <= |old(rest)|
      ensures ok ==> buf == old(rest)[..|buf|] && rest == old(rest)[|buf|..]
      ensures complete ==> ok && todo == |rest|
      ensures ok && !complete ==> |buf| == count
    {
      hide Concat, AllSections, IsSection, InStep;
      ghost var had, kept := rest, secheader[..];
      HeaderLeft(todo, rest, current, kept);
      var hcount := Min(HEADER_SIZE + todo, count);
      var result;
      result, buf := Take(nonBlocking, hcount);
      ok, complete := result >= 0, false;
      if result < 0 {
        todo := 0;
        NothingBegun(current, secheader[..]);
        return;
      }
      KeepHeader(-todo, buf);
      HeaderGoesOn(todo, had, current, kept, |buf|, secheader[..]);
      todo := todo - result;
      if todo > -HEADER_SIZE { return; }
      todo := Be16(secheader[1], secheader[2]) % 0x1000;
      complete := true;
    }

    /** copy_from_user into the header kept. */
    method KeepHeader(at: nat, x: seq<Byte>)
      requires at + |x| <= secheader.Length
      modifies secheader
      ensures secheader[..][..at + |x|] == old(secheader[..])[..at] + x
    {
      forall i | 0 <= i < |x| { secheader[at + i] := x[i]; }
    }

    /**
     * A read that finds an error recorded: dvb_dmxdev_buffer_read hands it out and empties the ring.
     * In the header the search for a section starts over; in a body `todo` stays as it was.
     */
    method ReadError(nonBlocking: bool, count: nat) returns (ret: int, buf: seq<Byte>)
      requires Valid() && buffer.error != 0
      modifies this, buffer
      ensures ret == old(buffer.error) && buf == [] && buffer.Valid() && buffer.Bytes() == [] && buffer.error == 0
      ensures rest == [] && queue == [] && todo == (if old(todo) <= 0 then 0 else old(todo))
      ensures Valid() <==> old(todo) <= 0
    {
      ret, buf := BufferRead(nonBlocking, if todo <= 0 then Min(HEADER_SIZE + todo, count) else Min(count, todo));
      if todo <= 0 {
        todo := 0;
      }
      rest, queue := [], [];
    }

    /**
     * dvb_dmxdev_read_sec. When blocking, something is there by the time the waits are over. One read
     * gives what is asked for of one section, and never more than is left of it.
     */
    method ReadSec(nonBlocking: bool, count: nat) returns (ret: int, buf: seq<Byte>)
      requires Valid() && (nonBlocking || buffer.error != 0 || Current(rest, queue) != [])
      modifies this, buffer, secheader
      ensures buffer.Valid() && buffer.error == 0 && (Valid() <==> old(buffer.error) == 0 || old(todo) <= 0)
      ensures old(buffer.error) != 0 ==>
                ret == old(buffer.error) && buf == [] && rest == [] && queue == [] && buffer.Bytes() == []
      ensures old(buffer.error) == 0 ==>
              var cur := Current(old(rest), old(queue));
              var n := Min(count, |cur|);
              && buf == cur[..n] && rest == cur[n..]
              && queue == (if old(rest) == [] && old(queue) != [] then old(queue)[1..] else old(queue))
              && ret == if cur == [] && count > 0 then -EWOULDBLOCK else n
    {
      hide AllSections, Concat, IsSection;
      if buffer.error != 0 {
        ret, buf := ReadError(nonBlocking, count);
        return;
      }
      Advance();
      ret, buf := ReadCurrent(nonBlocking, count);
    }

    /** The rest of dvb_dmxdev_read_sec, once it is settled which section is read from. */
    method ReadCurrent(nonBlocking: bool, count: nat) returns (ret: int, buf: seq<Byte>)
      requires Valid() && buffer.error == 0 && (rest == [] ==> nonBlocking && buffer.Bytes() == [])
      modifies `todo, `rest, buffer, secheader
      ensures Valid() && buffer.error == 0
      ensures var n := Min(count, |old(rest)|);
              buf == old(rest)[..n] && rest == old(rest)[n..] && ret == if old(rest) == [] && count > 0 then -EWOULDBLOCK else n
    {
      hide AllSections, Concat, IsSection, InStep;
      ghost var cur := rest;
      var done, left := 0, count;
      buf := [];
      assert cur[0..] == cur && cur[..0] == [];
      if todo <= 0 {
        var ok, complete, header := ReadHeader(nonBlocking, count);
        if !ok { return -EWOULDBLOCK, []; }
        buf, done, left := header, |header|, left - |header|;
        if !complete || left == 0 { return done, buf; }
      }
      BodyLeft(todo, rest, current, secheader[..]);
      left := Min(left, todo);
      TakeInTwo(cur, done, done + left);
      var result, more := Take(nonBlocking, left);
      BodyGoesOn(todo, cur[done..], current, secheader[..], left);
      todo := todo - result;
      ret, buf := result + done, buf + more;
    }
  }

  lemma FrontOf(a: seq<Byte>, b: seq<Byte>, n: nat)
    requires n <= |a|
    ensures (a + b)[..n] == a[..n] && (a + b)[n..] == a[n..] + b
  {
  }

  /** Twelve bits of the header are the length of what follows it. */
  lemma LengthField(s: seq<Byte>)
    requires IsSection(s)
    ensures |s| >= HEADER_SIZE && s[..HEADER_SIZE][1] == s[1] && s[..HEADER_SIZE][2] == s[2]
    ensures Be16(s[1], s[2]) % 0x1000 == |s| - HEADER_SIZE
  {
    assert Be16(s[1], s[2]) == s[1] / 16 * 0x1000 + Be16(s[1] % 16, s[2]);
  }

  lemma QueueMore(rest: seq<Byte>, queue: seq<seq<Byte>>, section: seq<Byte>)
    requires AllSections(queue) && IsSection(section)
    ensures AllSections(queue + [section]) && rest + Concat(queue + [section]) == rest + Concat(queue) + section
  {
    ConcatSplit(queue, [section]);
    ConcatOne(section);
    Associative(rest, Concat(queue), section);
  }

  /** A read takes its bytes from the front of everything there is to read. */
  lemma ReadTakesFront(rest: seq<Byte>, queue: seq<seq<Byte>>, n: nat)
    requires AllSections(queue) && n <= |Current(rest, queue)|
    ensures var cur := Current(rest, queue);
            var left := if rest == [] && queue != [] then queue[1..] else queue;
            AllSections(left) && cur[..n] + (cur[n..] + Concat(left)) == rest + Concat(queue)
  {
    var cur := Current(rest, queue);
    var left := if rest == [] && queue != [] then queue[1..] else queue;
    assert cur + Concat(left) == rest + Concat(queue) by {
      if rest == [] { assert [] + Concat(queue) == Concat(queue); }
    }
    hide Concat, Current, IsSection;
    Associative(cur[..n], cur[n..], Concat(left));
    assert cur[..n] + cur[n..] == cur;
  }

  /**
   * Reads of any sizes, one after the other, while no error is recorded: put together they are the
   * sections as they were queued.
   */
  method ReadBack(filter: DmxdevFilter, counts: seq<nat>) returns (bufs: seq<seq<Byte>>)
    requires filter.Valid() && filter.buffer.error == 0
    modifies filter, filter.buffer, filter.secheader
    ensures filter.Valid() && filter.buffer.error == 0 && |bufs| == |counts|
    ensures Concat(bufs) + (filter.rest + Concat(filter.queue)) == old(filter.rest + Concat(filter.queue))
    ensures forall i :: 0 <= i < |bufs| ==> |bufs[i]| <= counts[i]
  {
    hide Concat, AllSections;
    bufs := [];
    ghost var all := filter.rest + Concat(filter.queue);
    NothingRead(all);
    for i := 0 to |counts|
      invariant filter.Valid() && filter.buffer.error == 0 && |bufs| == i
      invariant Concat(bufs) + (filter.rest + Concat(filter.queue)) == all
      invariant forall k :: 0 <= k < i ==> |bufs[k]| <= counts[k]
    {
      ghost var rest, queue := filter.rest, filter.queue;
      ReadTakesFront(rest, queue, Min(counts[i], |Current(rest, queue)|));
      var ret, buf := filter.ReadSec(true, counts[i]);
      ConcatSplit(bufs, [buf]);
      ConcatOne(buf);
      Associative(Concat(bufs), buf, filter.rest + Concat(filter.queue));
      bufs := bufs + [buf];
    }
  }

  lemma NothingRead(all: seq<Byte>)
    ensures Concat<Byte>([]) + all == all
  {
  }

  // ---------------------------------------------------------------------------------------------
  // Reads while sections arrive
  // ---------------------------------------------------------------------------------------------

  /** A section comes from the demux, or somebody reads. */
  datatype Event = Arrive(section: seq<Byte>) | Read(count: nat)

  predicate EventsOk(es: seq<Event>) {
    forall i :: 0 <= i < |es| && es[i].Arrive? ==> IsSection(es[i].section)
  }

  function Arrived(es: seq<Event>): seq<seq<Byte>> {
    if es == [] then [] else Arrived(es[..|es| - 1]) + if es[|es| - 1].Arrive? then [es[|es| - 1].section] else []
  }

  lemma ArrivedNext(es: seq<Event>, i: nat)
    requires i < |es|
    ensures Arrived(es[..i + 1]) == Arrived(es[..i]) + if es[i].Arrive? then [es[i].section] else []
  {
    assert es[..i + 1][..i] == es[..i];
  }

  predicate IsSlice(b: seq<Byte>, s: seq<Byte>, from: int) {
    0 <= from && from + |b| <= |s| && s[from..from + |b|] == b
  }

  /** `b` lies within one of the sections. */
  ghost predicate WithinOne(b: seq<Byte>, ss: seq<seq<Byte>>) {
    b == [] || exists k, from :: 0 <= k < |ss| && IsSlice(b, ss[k], from)
  }

  predicate EndsWith(s: seq<Byte>, rest: seq<Byte>) {
    |rest| <= |s| && s[|s| - |rest|..] == rest
  }

  /** Of all that has arrived, `queue` has not been begun, and `rest` is the end of the section before it. */
  ghost predicate ReadUpTo(ss: seq<seq<Byte>>, rest: seq<Byte>, queue: seq<seq<Byte>>) {
    && |queue| <= |ss| && queue == ss[|ss| - |queue|..]
    && (rest != [] ==> |queue| < |ss| && EndsWith(ss[|ss| - |queue| - 1], rest))
  }

  lemma ReadsOn(ss: seq<seq<Byte>>, rest: seq<Byte>, queue: seq<seq<Byte>>, n: nat)
    requires ReadUpTo(ss, rest, queue) && n <= |Current(rest, queue)|
    ensures var cur := Current(rest, queue);
            && WithinOne(cur[..n], ss)
            && ReadUpTo(ss, cur[n..], if rest == [] && queue != [] then queue[1..] else queue)
  {
    var cur := Current(rest, queue);
    if rest != [] {
      var k := |ss| - |queue| - 1;
      var from := |ss[k]| - |rest|;
      assert IsSlice(cur[..n], ss[k], from);
      assert EndsWith(ss[k], cur[n..]);
    } else if queue != [] {
      var k := |ss| - |queue|;
      assert queue[0] == ss[k];
      assert IsSlice(cur[..n], ss[k], 0);
      assert EndsWith(ss[k], cur[n..]);
      assert queue[1..] == ss[k + 1..];
    }
  }

  lemma ArrivesBehind(ss: seq<seq<Byte>>, rest: seq<Byte>, queue: seq<seq<Byte>>, section: seq<Byte>)
    requires ReadUpTo(ss, rest, queue)
    ensures ReadUpTo(ss + [section], rest, queue + [section])
  {
    if rest != [] {
      assert (ss + [section])[|ss| - |queue| - 1] == ss[|ss| - |queue| - 1];
    }
  }

  lemma StillWithin(b: seq<Byte>, ss: seq<seq<Byte>>, section: seq<Byte>)
    requires WithinOne(b, ss)
    ensures WithinOne(b, ss + [section])
  {
    if b != [] {
      var k, from :| 0 <= k < |ss| && IsSlice(b, ss[k], from);
      assert IsSlice(b, (ss + [section])[k], from);
    }
  }

  lemma MoreToRead(front: seq<Byte>, rest: seq<Byte>, queue: seq<seq<Byte>>, ss: seq<seq<Byte>>, section: seq<Byte>)
    requires front + (rest + Concat(queue)) == Concat(ss)
    ensures front + (rest + Concat(queue + [section])) == Concat(ss + [section])
  {
    hide Concat;
    ConcatSplit(queue, [section]);
    ConcatSplit(ss, [section]);
    Associative(rest, Concat(queue), Concat([section]));
    Associative(front, rest + Concat(queue), Concat([section]));
  }

  /** `bufs` have been read of the sections `ss`, each within one, and `rest` and `queue` are to come. */
  ghost predicate Kept(bufs: seq<seq<Byte>>, ss: seq<seq<Byte>>, rest: seq<Byte>, queue: seq<seq<Byte>>) {
    && ReadUpTo(ss, rest, queue)
    && Concat(bufs) + (rest + Concat(queue)) == Concat(ss)
    && forall i :: 0 <= i < |bufs| ==> WithinOne(bufs[i], ss)
  }

  lemma NothingArrived(es: seq<Event>)
    ensures Kept([], Arrived(es[..0]), [], [])
  {
  }

  lemma KeptOnArrival(bufs: seq<seq<Byte>>, ss: seq<seq<Byte>>, rest: seq<Byte>, queue: seq<seq<Byte>>, section: seq<Byte>)
    requires Kept(bufs, ss, rest, queue)
    ensures Kept(bufs, ss + [section], rest, queue + [section])
  {
    hide Concat, WithinOne, ReadUpTo;
    MoreToRead(Concat(bufs), rest, queue, ss, section);
    ArrivesBehind(ss, rest, queue, section);
    forall i | 0 <= i < |bufs| ensures WithinOne(bufs[i], ss + [section]) {
      StillWithin(bufs[i], ss, section);
    }
  }

  lemma KeptOnRead(bufs: seq<seq<Byte>>, ss: seq<seq<Byte>>, rest: seq<Byte>, queue: seq<seq<Byte>>, n: nat)
    requires Kept(bufs, ss, rest, queue) && AllSections(queue) && n <= |Current(rest, queue)|
    ensures var cur := Current(rest, queue);
            Kept(bufs + [cur[..n]], ss, cur[n..], if rest == [] && queue != [] then queue[1..] else queue)
  {
    hide Concat, WithinOne, ReadUpTo, AllSections, Current;
    var cur := Current(rest, queue);
    var left := if rest == [] && queue != [] then queue[1..] else queue;
    ReadTakesFront(rest, queue, n);
    ReadsOn(ss, rest, queue, n);
    ConcatSplit(bufs, [cur[..n]]);
    ConcatOne(cur[..n]);
    Associative(Concat(bufs), cur[..n], cur[n..] + Concat(left));
  }

  /**
   * Sections arrive and are read in any order, until one finds no room: what the reads returned and
   * what is still to come are the sections that arrived, in order, and no read has bytes of two of them.
   */
  method Interleave(buffer: DvbRingbuffer, es: seq<Event>) returns (filter: DmxdevFilter, done: nat, bufs: seq<seq<Byte>>)
    requires buffer.Valid() && buffer.Bytes() == [] && buffer.error == 0 && EventsOk(es)
    modifies buffer, buffer.data
    ensures fresh(filter) && filter.buffer == buffer && filter.Valid()
    ensures done <= |es| && (done < |es| ==> es[done].Arrive? && buffer.error == -EOVERFLOW
                                             && |buffer.Bytes()| + |es[done].section| >= buffer.data.Length)
    ensures Concat(bufs) + (filter.rest + Concat(filter.queue)) == Concat(Arrived(es[..done]))
    ensures forall i :: 0 <= i < |bufs| ==> WithinOne(bufs[i], Arrived(es[..done]))
  {
    hide Concat, AllSections, Arrived, IsSection, Kept, Unread, WithinOne, InStep;
    filter := new DmxdevFilter(buffer);
    bufs, done := [], 0;
    NothingArrived(es);
    while done < |es|
      invariant done <= |es| && filter.Valid() && buffer.error == 0
      invariant Kept(bufs, Arrived(es[..done]), filter.rest, filter.queue)
    {
      ghost var ss, rest, queue := Arrived(es[..done]), filter.rest, filter.queue;
      ArrivedNext(es, done);
      match es[done] {
        case Arrive(section) =>
          filter.SectionCallback(section);
          if buffer.error != 0 {
            KeptParts(bufs, ss, rest, queue);
            return;
          }
          KeptOnArrival(bufs, ss, rest, queue, section);
        case Read(count) =>
          KeptOnRead(bufs, ss, rest, queue, Min(count, |Current(rest, queue)|));
          var ret, buf := filter.ReadSec(true, count);
          bufs := bufs + [buf];
          assert ss + [] == ss;
      }
      done := done + 1;
    }
    KeptParts(bufs, Arrived(es[..done]), filter.rest, filter.queue);
  }

  lemma KeptParts(bufs: seq<seq<Byte>>, ss: seq<seq<Byte>>, rest: seq<Byte>, queue: seq<seq<Byte>>)
    requires Kept(bufs, ss, rest, queue)
    ensures Concat(bufs) + (rest + Concat(queue)) == Concat(ss)
    ensures forall i :: 0 <= i < |bufs| ==> WithinOne(bufs[i], ss)
  {
  }
}
