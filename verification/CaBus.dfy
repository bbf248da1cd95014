/**
 * The control interface of a CAM (Annex A of EN 50221): its registers, the accesses that make up
 * the reading and writing of link packets and the initialisation of a link, and what answers them.
 */
module CaBus {
  import opened Bytes
  import opened CaLink

  const EAGAIN := 11
  const ETIMEDOUT := 110

  /** The registers of the control interface. */
  datatype Register = Data | Command | Status | SizeLow | SizeHigh

  const IRQEN := 0x80
  const CMDREG_HC := 1
  const CMDREG_SW := 2
  const CMDREG_SR := 4
  const CMDREG_RS := 8

  /** One access: what was read, an error if negative, or what was written and the answer to it. */
  datatype Access = Got(reg: Register, value: int) | Put(reg: Register, value: int, status: int)

  /** STATUSREG bits: RE = 1, WE = 2, FR = 0x40, DA = 0x80; of a negative value as in two's complement. */
  predicate Bit(flags: int, mask: nat)
    requires mask > 0
  {
    flags / mask % 2 == 1
  }

  // A link packet is read as status, length, data and status again.

  /** The number of data bytes announced. */
  function Announced(log: seq<Access>): int
    requires |log| >= 3
  {
    Be16(log[1].value, log[2].value)
  }

  /** The bits of the two values a cooperative CAM has in its status register, and of no other. */
  lemma StatusBits()
    ensures Bit(0xc0, 0x80) && Bit(0xc0, 0x40) && !Bit(0xc0, 1) && !Bit(0xc0, 2)
    ensures !Bit(0x40, 0x80) && Bit(0x40, 0x40) && !Bit(0x40, 1) && !Bit(0x40, 2)
  {
  }

  predicate ReadInOrder(log: seq<Access>) {
    forall i :: 0 <= i < |log| ==>
      && log[i].Got?
      && log[i].reg == if i == 0 then Status else if i == 1 then SizeHigh else if i == 2 then SizeLow
                       else if i < 3 + Announced(log) then Data else Status
  }

  predicate NoErrors(log: seq<Access>) {
    forall i :: 0 <= i < |log| ==> log[i].value >= 0
  }

  /** Everything announced was there and was read, and the interface reports no read error. */
  predicate AllRead(log: seq<Access>) {
    |log| >= 4 && |log| == 4 + Announced(log) && NoErrors(log) && Bit(log[0].value, 0x80) && !Bit(log[|log| - 1].value, 1)
  }

  predicate WholeRead(log: seq<Access>, buf: seq<Byte>) {
    AllRead(log) && |log| == 4 + |buf| && forall i :: 0 <= i < |buf| ==> log[3 + i].value == buf[i]
  }

  /** The length announced is that of no link packet. */
  predicate BadLength(log: seq<Access>, limit: int) {
    |log| == 3 && NoErrors(log) && !(2 <= Announced(log) <= limit)
  }

  /** All was read, and the interface reports a read error. */
  predicate FailedRead(log: seq<Access>) {
    |log| >= 4 && |log| == 4 + Announced(log) && NoErrors(log) && Bit(log[|log| - 1].value, 1)
  }

  /** The status and the length, or as much of it as can be read. */
  lemma LengthFirst(status: int, high: int, low: int)
    ensures ReadInOrder([Got(Status, status)])
    ensures ReadInOrder([Got(Status, status), Got(SizeHigh, high)])
    ensures var log := [Got(Status, status), Got(SizeHigh, high), Got(SizeLow, low)];
            && ReadInOrder(log) && Announced(log) == Be16(high, low)
            && (NoErrors(log) <==> status >= 0 && high >= 0 && low >= 0)
    ensures Be16(0, 2) == 2
  {
    var log := [Got(Status, status), Got(SizeHigh, high), Got(SizeLow, low)];
    assert log[0].value == status && log[1].value == high && log[2].value == low;
  }

  lemma TwoBytes(n: int, buf: seq<Byte>)
    requires |buf| == 2 && n == Be16(buf[0], buf[1])
    ensures 0 <= n < 0x1_0000 && SizeBytes(n) == buf
  {
  }

  lemma SizeOfBytes(n: int)
    requires 0 <= n < 0x1_0000
    ensures |SizeBytes(n)| == 2 && Be16(SizeBytes(n)[0], SizeBytes(n)[1]) == n
  {
  }

  // A link packet is written under host control: status, HC, status twice, length, data and status.

  /** Access `i` of writing `buf`. */
  predicate WriteStep(a: Access, i: nat, buf: seq<Byte>, flag: int) {
    if i in {0, 2, 3} || i == 6 + |buf| then a.Got? && a.reg == Status
    else if i == 1 then a.Put? && a.reg == Command && a.value == 0x81 + flag
    else if i == 4 then a.Put? && a.reg == SizeHigh && a.value == |buf| / 256
    else if i == 5 then a.Put? && a.reg == SizeLow && a.value == |buf| % 256
    else i < 6 + |buf| && a.Put? && a.reg == Data && a.value == buf[i - 6]
  }

  /** What access `i` says of the write: 0 to go on, otherwise the error it ends with. */
  function Verdict(a: Access, i: nat): int {
    if a.Put? then a.status
    else if a.value < 0 then a.value
    else if i == 2 then if Bit(a.value, 0x40) then 0 else -EAGAIN
    else if i < 4 then if Bit(a.value, 0x80) || Bit(a.value, 1) then -EAGAIN else 0
    else if Bit(a.value, 2) then -EIO else 0
  }

  /**
   * Data waiting or a read error, at the first look and at the last one before the length, and an
   * interface that is not free in between mean "again"; a write error at the end is one.
   */
  lemma StatusesThatEndIt(a: Access, i: nat)
    requires a.Got? && a.value >= 0
    ensures i in {0, 3} ==> Verdict(a, i) == if a.value / 0x80 % 2 == 1 || a.value % 2 == 1 then -11 else 0
    ensures i == 2 ==> Verdict(a, i) == if a.value / 0x40 % 2 == 1 then 0 else -11
    ensures i > 3 ==> Verdict(a, i) == if a.value / 2 % 2 == 1 then -5 else 0
  {
  }

  /** The accesses up to the first that ends the write. */
  predicate Written(log: seq<Access>, buf: seq<Byte>, flag: int) {
    && (forall i :: 0 <= i < |log| ==> WriteStep(log[i], i, buf, flag))
    && (forall i :: 0 <= i < |log| - 1 ==> Verdict(log[i], i) == 0)
  }

  /** All of them are made, and none ends the write. */
  predicate WholeWrite(log: seq<Access>, buf: seq<Byte>, flag: int) {
    Written(log, buf, flag) && |log| == 7 + |buf| && Verdict(log[|log| - 1], |log| - 1) == 0
  }

  /** The status is looked at until `waitfor` shows, an error, or the time is up. */
  predicate Polled(log: seq<Access>, waitfor: nat, polls: nat)
    requires waitfor > 0
  {
    && 1 <= |log| <= polls + 1
    && (forall i :: 0 <= i < |log| ==> log[i].Got? && log[i].reg == Status)
    && (forall i :: 0 <= i < |log| - 1 ==> log[i].value >= 0 && !Bit(log[i].value, waitfor))
    && (Waited(log, waitfor) == -ETIMEDOUT ==> |log| == polls + 1)
  }

  function Waited(log: seq<Access>, waitfor: nat): int
    requires log != [] && waitfor > 0
  {
    var last := log[|log| - 1].value;
    if last < 0 then -EIO else if Bit(last, waitfor) then 0 else -ETIMEDOUT
  }

  predicate Found(log: seq<Access>, waitfor: nat)
    requires waitfor > 0
  {
    log != [] && Waited(log, waitfor) == 0
  }

  predicate Obeyed(log: seq<Access>, command: int) {
    log == [Put(Command, command, 0)]
  }

  // A link is initialised by asking the CAM for the size of its buffer, and telling it which to use.

  datatype Asking = Asking(command: seq<Access>, wait: seq<Access>, packet: seq<Access>, done: seq<Access>) {
    function Accesses(): seq<Access> { command + wait + packet + done }
  }

  datatype Offer = Offer(command: seq<Access>, wait: seq<Access>, packet: seq<Access>, closing: seq<Access>, done: seq<Access>) {
    function Accesses(): seq<Access> { command + wait + packet + closing + done }
  }

  function SizeBytes(size: int): (b: seq<Byte>)
    requires 0 <= size < 0x1_0000
  {
    [size / 256, size % 256]
  }

  /** The CAM has named a size. */
  predicate Named(a: Asking, size: int) {
    && 0 <= size < 0x1_0000 && Obeyed(a.command, 0x84) && Found(a.wait, 0x80)
    && WholeRead(a.packet, SizeBytes(size)) && Obeyed(a.done, 0x80)
  }

  /** The CAM has taken a size. */
  predicate Agreed(o: Offer, size: int) {
    && 0 <= size < 0x1_0000 && Obeyed(o.command, 0x82) && Found(o.wait, 0x40)
    && WholeWrite(o.packet, SizeBytes(size), 2) && Obeyed(o.done, 0x80)
  }

  /** The smaller of the two buffers is agreed on; a size below 2 cannot even be told. */
  predicate Negotiated(a: Asking, o: Offer, size: int) {
    Named(a, size) && size >= 2 && Agreed(o, if size < 512 then size else 512)
  }

  /** The last access did not end the write, and `a` is the next one. */
  predicate MayFollow(log: seq<Access>, a: Access, buf: seq<Byte>, flag: int) {
    |log| > 0 && Verdict(log[|log| - 1], |log| - 1) == 0 && WriteStep(a, |log|, buf, flag)
  }

  lemma WrittenOne(log: seq<Access>, a: Access, buf: seq<Byte>, flag: int)
    requires Written(log, buf, flag) && MayFollow(log, a, buf, flag)
    ensures Written(log + [a], buf, flag)
  {
    hide WriteStep, Verdict;
  }

  /** The interface is given back once it was asked for. */
  predicate GivenBack(log: seq<Access>, closing: seq<Access>) {
    if |log| <= 1 then closing == []
    else |closing| == 1 && closing[0].Put? && closing[0].reg == Command && closing[0].value == 0x80
  }

  /** A link packet of an allowed size. */
  predicate Admissible(log: seq<Access>, limit: int) {
    AllRead(log) && 2 <= Announced(log) <= limit
  }

  /** What one pass of the monitoring thread asked of the CAM. */
  datatype Dealings =
    | Silent
    | One(access: Access)
    | Linking(asking: Asking, offer: Offer, size: int)
    | Reads(logs: seq<seq<Access>>)
  {
    function Accesses(): seq<Access> {
      match this
      case Silent => []
      case One(a) => [a]
      case Linking(asking, offer, size) => asking.Accesses() + offer.Accesses()
      case Reads(logs) => Concat(logs)
    }
  }

  lemma NamedIsByte(a: Asking, size: int)
    requires Named(a, size)
    ensures 0 <= size < 0x1_0000
  {
  }

  /** What was read tells the size. */
  lemma OneSize(a: Asking, size: int)
    requires Named(a, size)
    ensures forall n :: Named(a, n) ==> n == size
  {
    hide AllRead, Found, Obeyed;
    forall n | Named(a, n) ensures n == size {
      assert SizeBytes(n)[0] == a.packet[3].value == SizeBytes(size)[0];
      assert SizeBytes(n)[1] == a.packet[4].value == SizeBytes(size)[1];
    }
  }

  /** A packet that is not complete, or of another length, tells none. */
  lemma OtherLength(log: seq<Access>, n: int)
    requires n > 0 <==> AllRead(log) && 0 < Announced(log) <= 2
    requires n > 0 ==> n == Announced(log) && n != 2
    ensures forall size :: 0 <= size < 0x1_0000 ==> !WholeRead(log, SizeBytes(size))
  {
  }

  lemma NoFailure(log: seq<Access>, limit: int)
    requires Admissible(log, limit)
    ensures !BadLength(log, limit) && !FailedRead(log)
  {
  }

  // A message is written fragment by fragment, each of them tried until it is taken.

  datatype Attempt = Attempt(fragment: Fragment, log: seq<Access>, closing: seq<Access>) {
    predicate Success() { WholeWrite(log, fragment, 0) }
  }

  function AllAccesses(attempts: seq<Attempt>): seq<Access> {
    if attempts == [] then [] else attempts[0].log + attempts[0].closing + AllAccesses(attempts[1..])
  }

  /** The fragments that got through. */
  function Through(attempts: seq<Attempt>): seq<Fragment> {
    if attempts == [] then []
    else (if attempts[0].Success() then [attempts[0].fragment] else []) + Through(attempts[1..])
  }

  /** Every attempt is for the first fragment that has not got through, and reaches the interface. */
  predicate InTurn(attempts: seq<Attempt>, fs: seq<Fragment>)
    decreases |attempts|
  {
    attempts == [] ||
    (var a := attempts[0];
     && fs != [] && a.fragment == fs[0] && a.log != [] && Written(a.log, a.fragment, 0) && GivenBack(a.log, a.closing)
     && InTurn(attempts[1..], if a.Success() then fs[1..] else fs))
  }

  lemma NothingTried(fs: seq<Fragment>)
    ensures InTurn([], fs) && Through([]) == [] && AllAccesses([]) == []
  {
  }

  lemma OneMoreAttempt(attempts: seq<Attempt>, a: Attempt, fs: seq<Fragment>)
    requires InTurn(attempts, fs)
    ensures AllAccesses(attempts + [a]) == AllAccesses(attempts) + (a.log + a.closing)
    ensures Through(attempts) <= fs
    ensures Through(attempts + [a]) == Through(attempts) + if a.Success() then [a.fragment] else []
    ensures MayBeNext(attempts, a, fs) ==> InTurn(attempts + [a], fs)
  {
    hide InTurn, Through, AllAccesses, Attempt.Success, MayBeNext;
    MoreAccesses(attempts, a);
    MoreThrough(attempts, a);
    ThroughFirst(attempts, fs);
    if MayBeNext(attempts, a, fs) { MoreInTurn(attempts, a, fs); }
  }

  predicate MayBeNext(attempts: seq<Attempt>, a: Attempt, fs: seq<Fragment>) {
    && |Through(attempts)| < |fs| && a.fragment == fs[|Through(attempts)|] && a.log != []
    && Written(a.log, a.fragment, 0) && GivenBack(a.log, a.closing)
  }

  lemma {:induction false} MoreAccesses(attempts: seq<Attempt>, a: Attempt)
    ensures AllAccesses(attempts + [a]) == AllAccesses(attempts) + (a.log + a.closing)
  {
    if attempts == [] {
      assert [] + [a] == [a] && [a][1..] == [];
    } else {
      var b := attempts[0];
      assert (attempts + [a])[0] == b && (attempts + [a])[1..] == attempts[1..] + [a];
      MoreAccesses(attempts[1..], a);
      Associative(b.log + b.closing, AllAccesses(attempts[1..]), a.log + a.closing);
    }
  }

  lemma {:induction false} MoreThrough(attempts: seq<Attempt>, a: Attempt)
    ensures Through(attempts + [a]) == Through(attempts) + if a.Success() then [a.fragment] else []
  {
    hide Attempt.Success;
    if attempts == [] {
      assert [] + [a] == [a] && [a][1..] == [];
    } else {
      assert (attempts + [a])[0] == attempts[0] && (attempts + [a])[1..] == attempts[1..] + [a];
      MoreThrough(attempts[1..], a);
    }
  }

  lemma {:induction false} ThroughFirst(attempts: seq<Attempt>, fs: seq<Fragment>)
    requires InTurn(attempts, fs)
    ensures Through(attempts) <= fs
    decreases |attempts|
  {
    hide Attempt.Success, Written, GivenBack;
    if attempts != [] { ThroughFirst(attempts[1..], if attempts[0].Success() then fs[1..] else fs); }
  }

  lemma {:induction false} MoreInTurn(attempts: seq<Attempt>, a: Attempt, fs: seq<Fragment>)
    requires InTurn(attempts, fs) && MayBeNext(attempts, a, fs)
    ensures InTurn(attempts + [a], fs)
    decreases |attempts|
  {
    hide Attempt.Success, Written, GivenBack;
    if attempts == [] {
      assert [] + [a] == [a] && [a][1..] == [];
    } else {
      assert (attempts + [a])[0] == attempts[0] && (attempts + [a])[1..] == attempts[1..] + [a];
      MoreInTurn(attempts[1..], a, if attempts[0].Success() then fs[1..] else fs);
    }
  }

  lemma NothingRead(limit: int)
    ensures !AllRead([]) && !FailedRead([]) && !BadLength([], limit) && ReadInOrder([])
  {
  }

  // What answers.

  type Capacity = n: nat | 2 <= n < 0x1_0000 witness 2

  /** A CAM with a link buffer of `capacity` bytes. */
  datatype Cam = Cam(capacity: Capacity, get: (seq<Access>, Register) -> int, put: (seq<Access>, Register, int) -> int)

  /** The command register as written last. */
  function LastCommand(log: seq<Access>): int
    decreases |log|
  {
    if log == [] then 0 else
      var last := log[|log| - 1];
      if last.Put? && last.reg == Command then last.value else LastCommand(log[..|log| - 1])
  }

  lemma LastCommandStep(log: seq<Access>, a: Access)
    ensures LastCommand(log + [a]) == if a.Put? && a.reg == Command then a.value else LastCommand(log)
  {
    assert (log + [a])[..|log|] == log;
  }

  /** Free at any time, with the size of its buffer ready when it is asked for that. */
  function Answer(capacity: Capacity, log: seq<Access>, reg: Register): int {
    match reg
    case Status => if LastCommand(log) == 0x84 then 0xc0 else 0x40
    case SizeHigh => 0
    case SizeLow => 2
    case Data => if log != [] && log[|log| - 1].reg == SizeLow then capacity / 256 else capacity % 256
    case Command => 0
  }

  /** It never refuses or fails. */
  ghost predicate Cooperative(cam: Cam) {
    && (forall log, reg :: cam.get(log, reg) == Answer(cam.capacity, log, reg))
    && (forall log, reg, value :: cam.put(log, reg, value) == 0)
  }

  /** There are such CAMs, of every capacity. */
  lemma SomeCooperate(capacity: Capacity)
    ensures Cooperative(Cam(capacity, (log: seq<Access>, reg: Register) => Answer(capacity, log, reg),
                            (log: seq<Access>, reg: Register, value: int) => 0))
  {
  }
}
