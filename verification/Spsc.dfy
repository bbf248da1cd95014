/**
 * One producer and one consumer on the byte ring of dvb_ringbuffer.c without a lock: every byte
 * copied and every store to a pointer is a step of its own, in any interleaving. The store of 0 at
 * the wrap makes the two halves of a transfer visible one after the other.
 */
module Spsc {
  import opened Bytes
  import opened Ringbuffer

  /**
   * The producer has looked at the free space, or copies `part` to the write pointer; `rest` goes
   * behind the wrap if there is one.
   */
  datatype Producer = Resting | Room(free: nat) | Copying(part: seq<Byte>, done: nat, wraps: bool, rest: seq<Byte>)

  /** The consumer has looked at what is there, or copies `part` bytes from the read pointer. */
  datatype Consumer = Waiting | There(avail: nat) | Fetching(part: nat, got: nat, wraps: bool, rest: nat)

  /** `sent` is everything published by stores to the write pointer, `received` what the consumer has copied. */
  datatype State = State(data: seq<Byte>, pread: nat, pwrite: nat, prod: Producer, cons: Consumer,
                         sent: seq<Byte>, received: seq<Byte>)

  // ---------------------------------------------------------------------------------------------
  // The functions both sides start with
  // ---------------------------------------------------------------------------------------------

  /** dvb_ringbuffer_free and dvb_ringbuffer_avail */
  function Free(pread: int, pwrite: int, size: int): int {
    (if pread - pwrite <= 0 then pread - pwrite + size else pread - pwrite) - 1
  }

  function Avail(pread: int, pwrite: int, size: int): int {
    if pwrite - pread < 0 then pwrite - pread + size else pwrite - pread
  }

  /** Taken on the same pointers the two add up to the size, less the one slot that stays empty. */
  lemma FreeAndAvail(data: seq<Byte>, pread: nat, pwrite: nat)
    requires pread < |data| && pwrite < |data|
    ensures Free(pread, pwrite, |data|) + Avail(pread, pwrite, |data|) == |data| - 1
    ensures Avail(pread, pwrite, |data|) == |Unread(data, pread, pwrite)|
  {
  }

  // ---------------------------------------------------------------------------------------------
  // Steps
  // ---------------------------------------------------------------------------------------------

  datatype Step =
    | LookForRoom | StartWrite(buf: seq<Byte>) | CopyByte | StoreWritePointer
    | LookForData | StartRead(len: nat) | FetchByte | StoreReadPointer

  predicate Pointers(s: State) {
    s.pread < |s.data| && s.pwrite < |s.data|
  }

  predicate Enabled(s: State, step: Step) {
    Pointers(s) &&
    match step
    case LookForRoom => s.prod.Resting?
    case StartWrite(buf) => s.prod.Room? && |buf| <= s.prod.free
    case CopyByte => s.prod.Copying? && s.prod.done < |s.prod.part|
    case StoreWritePointer => s.prod.Copying? && s.prod.done == |s.prod.part|
    case LookForData => s.cons.Waiting?
    case StartRead(len) => s.cons.There? && len <= s.cons.avail
    case FetchByte => s.cons.Fetching? && s.cons.got < s.cons.part
    case StoreReadPointer => s.cons.Fetching? && s.cons.got == s.cons.part
  }

  /** The part of a transfer in front of the wrap; 0 if it does not wrap. */
  function Split(p: nat, len: nat, size: nat): (split: nat)
    requires p < size
    ensures split <= len
  {
    if p + len > size then size - p else 0
  }

  function Do(s: State, step: Step): State
    requires Enabled(s, step)
  {
    var n := |s.data|;
    match step
    case LookForRoom =>
      var free := Free(s.pread, s.pwrite, n);
      s.(prod := Room(if free < 0 then 0 else free))
    case StartWrite(buf) =>
      var split := Split(s.pwrite, |buf|, n);
      s.(prod := if split > 0 then Copying(buf[..split], 0, true, buf[split..])
                 else Copying(buf, 0, false, []))
    case CopyByte =>
      var i := s.pwrite + s.prod.done;
      if i >= n then s   // out of bounds: shown not to happen
      else s.(data := s.data[i := s.prod.part[s.prod.done]], prod := s.prod.(done := s.prod.done + 1))
    case StoreWritePointer =>
      if s.prod.wraps then s.(pwrite := 0, prod := Copying(s.prod.rest, 0, false, []), sent := s.sent + s.prod.part)
      else s.(pwrite := (s.pwrite + |s.prod.part|) % n, prod := Resting, sent := s.sent + s.prod.part)
    case LookForData =>
      var avail := Avail(s.pread, s.pwrite, n);
      s.(cons := There(if avail < 0 then 0 else avail))
    case StartRead(len) =>
      var split := Split(s.pread, len, n);
      s.(cons := if split > 0 then Fetching(split, 0, true, len - split) else Fetching(len, 0, false, 0))
    case FetchByte =>
      var i := s.pread + s.cons.got;
      if i >= n then s   // out of bounds: shown not to happen
      else s.(received := s.received + [s.data[i]], cons := s.cons.(got := s.cons.got + 1))
    case StoreReadPointer =>
      if s.cons.wraps then s.(pread := 0, cons := Fetching(s.cons.rest, 0, false, 0))
      else s.(pread := (s.pread + s.cons.part) % n, cons := Waiting)
  }

  // ---------------------------------------------------------------------------------------------
  // The invariant
  // ---------------------------------------------------------------------------------------------

  function Queue(s: State): seq<Byte>
    requires Pointers(s)
  {
    Unread(s.data, s.pread, s.pwrite)
  }

  /** Bytes copied by the consumer whose room has not been given back yet. */
  function Fetched(c: Consumer): nat {
    if c.Fetching? then c.got else 0
  }

  /** What the producer has seen or set out to write fits, whatever the consumer does meanwhile. */
  predicate ProducerOk(s: State)
    requires Pointers(s)
  {
    match s.prod
    case Resting => true
    case Room(free) => |Queue(s)| + free < |s.data|
    case Copying(part, done, wraps, rest) =>
      && done <= |part| && s.pwrite + |part| <= |s.data| && |Queue(s)| + |part| + |rest| < |s.data|
      && (if wraps then s.pwrite + |part| == |s.data| else rest == [])
      && s.data[s.pwrite..s.pwrite + done] == part[..done]
  }

  /** What the consumer has seen or set out to read is there, whatever the producer does meanwhile. */
  predicate ConsumerOk(s: State)
    requires Pointers(s)
  {
    match s.cons
    case Waiting => true
    case There(avail) => avail <= |Queue(s)|
    case Fetching(part, got, wraps, rest) =>
      && got <= part && s.pread + part <= |s.data| && part + rest <= |Queue(s)|
      && (if wraps then s.pread + part == |s.data| else rest == 0)
  }

  /** The unread bytes are the end of what was sent, and the consumer has all before them and those it is copying. */
  predicate Inv(s: State) {
    && Pointers(s) && ProducerOk(s) && ConsumerOk(s)
    && |Queue(s)| <= |s.sent| && s.sent[|s.sent| - |Queue(s)|..] == Queue(s)
    && Fetched(s.cons) <= |Queue(s)| && s.received == s.sent[..|s.sent| - |Queue(s)| + Fetched(s.cons)]
  }

  predicate Init(s: State) {
    && |s.data| > 0 && s.pread == 0 && s.pwrite == 0 && s.prod.Resting? && s.cons.Waiting? && s.sent == [] && s.received == []
  }

  lemma InitInv(s: State)
    requires Init(s)
    ensures Inv(s)
  {
  }

  /** A byte stored behind the write pointer, where there is room, changes no unread byte. */
  lemma StoreElsewhere(d: seq<Byte>, r: nat, w: nat, i: nat, b: Byte)
    requires r < |d| && w < |d| && w + i < |d| && |Unread(d, r, w)| + i < |d| - 1
    ensures Unread(d[w + i := b], r, w) == Unread(d, r, w)
  {
    var d' := d[w + i := b];
    forall k | 0 <= k < |Unread(d, r, w)| ensures Unread(d', r, w)[k] == Unread(d, r, w)[k] {
      UnreadAt(d, r, w, k);
      UnreadAt(d', r, w, k);
    }
  }

  /** Bytes between the write pointer and where the producer is copying are not unread. */
  lemma CopyKeeps(s: State)
    requires Inv(s) && Enabled(s, CopyByte)
    ensures s.pwrite + s.prod.done < |s.data| && Inv(Do(s, CopyByte)) && Queue(Do(s, CopyByte)) == Queue(s)
  {
    hide Unread;
    var t := Do(s, CopyByte);
    var i, part := s.prod.done, s.prod.part;
    StoreElsewhere(s.data, s.pread, s.pwrite, i, part[i]);
    assert t.data[s.pwrite..s.pwrite + i] == s.data[s.pwrite..s.pwrite + i];
    assert t.data[s.pwrite..s.pwrite + i + 1] == s.data[s.pwrite..s.pwrite + i] + [part[i]] == part[..i + 1];
  }

  /** What was copied joins the unread bytes once the write pointer is behind it. */
  lemma Published(data: seq<Byte>, pread: nat, pwrite: nat, part: seq<Byte>)
    requires pread < |data| && pwrite < |data| && pwrite + |part| <= |data| && |Unread(data, pread, pwrite)| + |part| < |data|
    requires data[pwrite..pwrite + |part|] == part[..|part|]
    ensures Unread(data, pread, Wrap(pwrite + |part|, |data|)) == Unread(data, pread, pwrite) + part
    ensures (pwrite + |part|) % |data| == Wrap(pwrite + |part|, |data|)
  {
    hide Unread;
    assert part[..|part|] == part;
    UnreadStore(data, data, pread, pwrite, part);
    ModIsWrap(pwrite + |part|, |data|);
  }

  lemma PublishKeeps(s: State)
    requires Inv(s) && Enabled(s, StoreWritePointer)
    ensures Inv(Do(s, StoreWritePointer)) && Queue(Do(s, StoreWritePointer)) == Queue(s) + s.prod.part
  {
    Published(s.data, s.pread, s.pwrite, s.prod.part);
    hide Unread;
    var t := Do(s, StoreWritePointer);
    SentMore(s.sent, Queue(s), s.prod.part);
    assert t.pwrite == Wrap(s.pwrite + |s.prod.part|, |s.data|);
    if s.prod.wraps {
      assert t.data[0..0] == s.prod.rest[..0];
    }
  }

  lemma SentMore(sent: seq<Byte>, q: seq<Byte>, part: seq<Byte>)
    requires |q| <= |sent| && sent[|sent| - |q|..] == q
    ensures (sent + part)[|sent + part| - |q + part|..] == q + part
    ensures forall k :: 0 <= k <= |sent| ==> (sent + part)[..k] == sent[..k]
  {
  }

  lemma NextUnread(sent: seq<Byte>, q: seq<Byte>, i: nat)
    requires |q| <= |sent| && sent[|sent| - |q|..] == q && i < |q|
    ensures var k := |sent| - |q| + i; q[i] == sent[k] && sent[..k] + [q[i]] == sent[..k + 1]
  {
    assert q[i] == sent[|sent| - |q|..][i];
  }

  /** The next byte the consumer copies is the next one it has not got yet. */
  lemma FetchKeeps(s: State)
    requires Inv(s) && Enabled(s, FetchByte)
    ensures s.pread + s.cons.got < |s.data| && Inv(Do(s, FetchByte))
    ensures |s.received| < |s.sent| && s.data[s.pread + s.cons.got] == s.sent[|s.received|]
  {
    UnreadAt(s.data, s.pread, s.pwrite, s.cons.got);
    hide Unread;
    NextUnread(s.sent, Queue(s), s.cons.got);
    var t := Do(s, FetchByte);
    assert Queue(t) == Queue(s);
  }

  /** Giving back room: what has been copied is no longer unread. */
  lemma ReleaseKeeps(s: State)
    requires Inv(s) && Enabled(s, StoreReadPointer)
    ensures Inv(Do(s, StoreReadPointer)) && Queue(Do(s, StoreReadPointer)) == Queue(s)[s.cons.part..]
  {
    hide Unread;
    var t := Do(s, StoreReadPointer);
    UnreadSkip(s.data, s.pread, s.pwrite, s.cons.part);
    ModIsWrap(s.pread + s.cons.part, |s.data|);
    assert t.pread == Wrap(s.pread + s.cons.part, |s.data|);
    assert Queue(t) == Queue(s)[s.cons.part..];
    assert s.sent[|s.sent| - |Queue(s)|..][s.cons.part..] == s.sent[|s.sent| - |Queue(t)|..];
  }

  lemma ProducerLookKeeps(s: State, step: Step)
    requires Inv(s) && Enabled(s, step) && (step.LookForRoom? || step.StartWrite?)
    ensures Inv(Do(s, step))
  {
    FreeAndAvail(s.data, s.pread, s.pwrite);
    hide Unread, Avail, Free;
  }

  lemma ConsumerLookKeeps(s: State, step: Step)
    requires Inv(s) && Enabled(s, step) && (step.LookForData? || step.StartRead?)
    ensures Inv(Do(s, step))
  {
    FreeAndAvail(s.data, s.pread, s.pwrite);
    hide Unread, Avail, Free;
  }

  /** Every step keeps the invariant, so every interleaving does. */
  lemma StepKeeps(s: State, step: Step)
    requires Inv(s) && Enabled(s, step)
    ensures Inv(Do(s, step))
  {
    hide Inv, Do, Enabled;
    match step
    case CopyByte => CopyKeeps(s);
    case StoreWritePointer => PublishKeeps(s);
    case FetchByte => FetchKeeps(s);
    case StoreReadPointer => ReleaseKeeps(s);
    case LookForRoom => ProducerLookKeeps(s, step);
    case StartWrite(_) => ProducerLookKeeps(s, step);
    case LookForData => ConsumerLookKeeps(s, step);
    case StartRead(_) => ConsumerLookKeeps(s, step);
  }

  // ---------------------------------------------------------------------------------------------
  // Whole runs
  // ---------------------------------------------------------------------------------------------

  predicate EnabledAll(s: State, steps: seq<Step>)
    decreases |steps|
  {
    steps == [] || (Enabled(s, steps[0]) && EnabledAll(Do(s, steps[0]), steps[1..]))
  }

  function DoAll(s: State, steps: seq<Step>): State
    requires EnabledAll(s, steps)
    decreases |steps|
  {
    if steps == [] then s else DoAll(Do(s, steps[0]), steps[1..])
  }

  /** Everything the producer has been given to write. */
  function Given(steps: seq<Step>): seq<Byte> {
    if steps == [] then [] else (if steps[0].StartWrite? then steps[0].buf else []) + Given(steps[1..])
  }

  /** What of it is not published yet. */
  function Pending(p: Producer): seq<Byte> {
    if p.Copying? then p.part + p.rest else []
  }

  /** Nothing is sent but what has been given, in order. */
  lemma GivenStep(s: State, step: Step)
    requires Inv(s) && Enabled(s, step)
    ensures Do(s, step).sent + Pending(Do(s, step).prod)
            == s.sent + Pending(s.prod) + if step.StartWrite? then step.buf else []
  {
    hide Unread;
    var t := Do(s, step);
    if step.StoreWritePointer? {
      Associative(s.sent, s.prod.part, s.prod.rest);
      assert s.prod.rest + [] == s.prod.rest;
    }
  }

  lemma {:induction false} AnyInterleaving(s: State, steps: seq<Step>)
    requires Inv(s) && EnabledAll(s, steps)
    ensures var t := DoAll(s, steps);
            Inv(t) && t.sent + Pending(t.prod) == s.sent + Pending(s.prod) + Given(steps)
    decreases |steps|
  {
    hide Inv, Do, Enabled;
    if steps == [] {
      assert s.sent + Pending(s.prod) + [] == s.sent + Pending(s.prod);
    } else {
      StepKeeps(s, steps[0]);
      GivenStep(s, steps[0]);
      AnyInterleaving(Do(s, steps[0]), steps[1..]);
      Associative(s.sent + Pending(s.prod), if steps[0].StartWrite? then steps[0].buf else [], Given(steps[1..]));
    }
  }

  /**
   * After any steps of the two sides in any order the consumer has received a beginning of what the
   * producer was given, and the producer is ahead of it by less than the size of the ring.
   */
  lemma ReceivedIsWhatWasGiven(s: State, steps: seq<Step>)
    requires Init(s) && EnabledAll(s, steps)
    ensures var t := DoAll(s, steps);
            && t.received <= t.sent <= Given(steps)
            && |t.sent| - |t.received| < |t.data| && Pointers(t)
            && |Queue(t)| <= |t.sent| && t.sent[|t.sent| - |Queue(t)|..] == Queue(t)
  {
    hide Do, Enabled, Unread;
    InitInv(s);
    AnyInterleaving(s, steps);
    var t := DoAll(s, steps);
    assert s.sent + Pending(s.prod) + Given(steps) == Given(steps);
    assert t.sent == (t.sent + Pending(t.prod))[..|t.sent|];
  }
}
