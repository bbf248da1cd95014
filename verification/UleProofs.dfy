/**
 * What the ULE decapsulator guarantees: SNDUs packed into cells as in section 6.2 of RFC 4326 come
 * out once each and in order, wherever their length, type, body or checksum meets a cell boundary.
 */
module UleProofs {
  import opened Bytes
  import opened Crc
  import opened Ule
  import opened UleDecoder

  // ---------------------------------------------------------------------------------------------
  // SNDUs as they are sent
  // ---------------------------------------------------------------------------------------------

  /** Length 0x7fff with the D bit set is the end indicator, not a length. */
  predicate IsSndu(s: Sndu) {
    && s.kind < 0x1_0000 && s.body != [] && |s.body| + CRC_SIZE < 0x8000
    && !(s.dbit && |s.body| + CRC_SIZE == 0x7fff)
  }

  predicate AllSndus(ss: seq<Sndu>) {
    forall i :: 0 <= i < |ss| ==> IsSndu(ss[i])
  }

  function Checked(s: Sndu): (b: seq<Byte>)
    requires IsSndu(s)
    ensures |b| == HEADER_SIZE + |s.body|
  {
    LengthField(|s.body| + CRC_SIZE, s.dbit) + TypeField(s.kind) + s.body
  }

  function Encode(s: Sndu): (b: seq<Byte>)
    requires IsSndu(s)
    ensures |b| == HEADER_SIZE + |s.body| + CRC_SIZE
  {
    Checked(s) + WordBytes(Crc32(0xffff_ffff, Checked(s)))
  }

  lemma CheckedFields(s: Sndu)
    requires IsSndu(s)
    ensures var b := Checked(s);
            && Length(b) == |s.body| + CRC_SIZE && (b[0] >= 0x80) == s.dbit
            && Be16(b[2], b[3]) == s.kind && b[HEADER_SIZE..] == s.body && !(b[0] == 0xff && b[1] == 0xff)
  {
  }

  lemma EncodedFields(s: Sndu)
    requires IsSndu(s)
    ensures var b := Encode(s);
            Total(b) == |b| && Length(b) >= MIN_SNDU_LEN && !(b[0] == 0xff && b[1] == 0xff)
  {
    hide Crc32, WordBytes;
    CheckedFields(s);
    hide Checked;
  }

  /** The gate lets an SNDU through as it was sent. */
  lemma OwnSnduPasses(s: Sndu)
    requires IsSndu(s)
    ensures Gate(Encode(s)) == [s]
  {
    hide Crc32, WordBytes, Word;
    CheckedFields(s);
    var c := Checked(s);
    var b := Encode(s);
    var n := |c|;
    WordOfBytes(Crc32(0xffff_ffff, c));
    hide Checked;
    assert b[..n] == c && b[HEADER_SIZE..n] == c[HEADER_SIZE..] == s.body;
    assert b[n..] == WordBytes(Crc32(0xffff_ffff, c));
    assert b[n] == b[n..][0] && b[n + 1] == b[n..][1] && b[n + 2] == b[n..][2] && b[n + 3] == b[n..][3];
  }

  /**
   * And it lets nothing else through: a complete SNDU passes exactly when its last four bytes are
   * the checksum of the bytes before them, and those bytes are the ones `s` is sent with.
   */
  lemma PassesExactlyWhen(b: seq<Byte>, s: Sndu)
    requires |b| >= 2 && Length(b) >= MIN_SNDU_LEN && Total(b) == |b| && !(b[0] == 0xff && b[1] == 0xff)
    ensures Gate(b) == [s] <==>
              var n := |b| - CRC_SIZE;
              && IsSndu(s) && b[..n] == Checked(s)
              && Word(b[n], b[n + 1], b[n + 2], b[n + 3]) == Crc32(0xffff_ffff, Checked(s))
  {
    hide Crc32, Word;
    var n := |b| - CRC_SIZE;
    if IsSndu(s) && b[..n] == Checked(s) {
      CheckedFields(s);
      assert b[HEADER_SIZE..n] == b[..n][HEADER_SIZE..];
      assert b[0] == b[..n][0] && b[2] == b[..n][2] && b[3] == b[..n][3];
    }
    if Gate(b) == [s] {
      assert s == Sndu(b[0] >= 0x80, Be16(b[2], b[3]), b[HEADER_SIZE..n]);
      SameChecked(b, s);
    }
  }

  /** The four header bytes come back from the fields read out of them. */
  lemma SameFields(b0: Byte, b1: Byte, b2: Byte, b3: Byte)
    ensures LengthField(Be16(b0 % 0x80, b1), b0 >= 0x80) == [b0, b1]
    ensures TypeField(Be16(b2, b3)) == [b2, b3]
  {
    var len := Be16(b0 % 0x80, b1);
    assert len / 0x100 == b0 % 0x80 && len % 0x100 == b1;
    assert Be16(b2, b3) / 0x100 == b2 && Be16(b2, b3) % 0x100 == b3;
  }

  lemma SameChecked(b: seq<Byte>, s: Sndu)
    requires |b| >= 2 && Length(b) >= MIN_SNDU_LEN && Total(b) == |b| && !(b[0] == 0xff && b[1] == 0xff)
    requires s == Sndu(b[0] >= 0x80, Be16(b[2], b[3]), b[HEADER_SIZE..|b| - CRC_SIZE])
    ensures IsSndu(s) && b[..|b| - CRC_SIZE] == Checked(s)
  {
    hide LengthField, TypeField;
    var n := |b| - CRC_SIZE;
    SameFields(b[0], b[1], b[2], b[3]);
    assert |s.body| + CRC_SIZE == Length(b) < 0x8000;
    assert b[..n] == [b[0], b[1]] + [b[2], b[3]] + b[HEADER_SIZE..n];
  }

  // ---------------------------------------------------------------------------------------------
  // What the decoder makes of packed SNDUs
  // ---------------------------------------------------------------------------------------------

  function EncodeAll(ss: seq<Sndu>): seq<Byte>
    requires AllSndus(ss)
  {
    if ss == [] then [] else Encode(ss[0]) + EncodeAll(ss[1..])
  }

  /** The end of an SNDU, and what is packed behind it. */
  lemma TakeEnd(s: Sndu, got: seq<Byte>, rest: seq<Byte>, x: seq<Byte>)
    requires IsSndu(s) && got + rest == Encode(s) && |got| >= 2 && rest != []
    ensures Started(got) && Take(got, rest + x) == Out(Next(x).got, [s] + Next(x).delivered)
  {
    hide Gate, Next, Encode;
    EncodedFields(s);
    OwnSnduPasses(s);
    assert Length(got) == Length(Encode(s));
    assert (rest + x)[..|rest|] == rest && (rest + x)[|rest|..] == x;
  }

  /** The front of an SNDU. */
  lemma NextPart(s: Sndu, k: nat)
    requires IsSndu(s) && 2 <= k < |Encode(s)|
    ensures var x := Encode(s)[..k]; Started(x) && Next(x) == Out(x, []) && Begin(x) == Out(x, [])
  {
    hide Gate, Encode;
    EncodedFields(s);
    var x := Encode(s)[..k];
    assert x[..2] + x[2..] == x && Length(x) == Length(Encode(s)) == Length(x[..2]) && !Padding(x);
    assert Take(x[..2], x[2..]) == Out(x, []);
    NextIs(x);
  }

  /** A whole SNDU, and what is packed behind it. */
  lemma NextWhole(s: Sndu, x: seq<Byte>)
    requires IsSndu(s)
    ensures var b := Encode(s) + x;
            Next(b) == Begin(b) == Out(Next(x).got, [s] + Next(x).delivered)
  {
    hide Gate, Encode, Take, Next;
    EncodedFields(s);
    var b := Encode(s) + x;
    assert b[..2] == Encode(s)[..2] && b[2..] == Encode(s)[2..] + x;
    assert Encode(s)[..2] + Encode(s)[2..] == Encode(s);
    assert !Padding(b) && Length(b) == Length(Encode(s));
    TakeEnd(s, Encode(s)[..2], Encode(s)[2..], x);
    NextIs(b);
  }

  lemma {:induction false} NextAll(ss: seq<Sndu>, x: seq<Byte>)
    requires AllSndus(ss)
    ensures Next(EncodeAll(ss) + x) == Out(Next(x).got, ss + Next(x).delivered)
    ensures ss != [] ==> Begin(EncodeAll(ss) + x) == Next(EncodeAll(ss) + x)
    decreases |ss|
  {
    hide Next, Begin, Encode;
    if ss == [] {
      assert EncodeAll(ss) + x == x && ss + Next(x).delivered == Next(x).delivered;
    } else {
      NextAll(ss[1..], x);
      NextWhole(ss[0], EncodeAll(ss[1..]) + x);
      Associative(Encode(ss[0]), EncodeAll(ss[1..]), x);
      Associative([ss[0]], ss[1..], Next(x).delivered);
      assert ss == [ss[0]] + ss[1..];
    }
  }

  // ---------------------------------------------------------------------------------------------
  // The sender
  // ---------------------------------------------------------------------------------------------

  /**
   * How a cell is filled. `Continue` carries on with the SNDU in progress and pads behind its end.
   * `Start` ends it, then packs `whole` more SNDUs and behind them `part` bytes of another one, or
   * padding if `part` is 0. A length field is never split.
   */
  datatype Fill = Continue | Start(whole: nat, part: nat)

  function Pad(n: nat): (b: seq<Byte>)
    ensures |b| == n && forall i :: 0 <= i < n ==> b[i] == 0xff
  {
    if n == 0 then [] else [0xff] + Pad(n - 1)
  }

  /** Space for new SNDUs, behind the pointer and the end of the one in progress. */
  function Room(rest: seq<Byte>): int {
    PAYLOAD_SIZE - 1 - |rest|
  }

  predicate FillOk(f: Fill, rest: seq<Byte>, ss: seq<Sndu>)
    requires AllSndus(ss)
  {
    match f
    case Continue => rest != []
    case Start(whole, part) =>
      && whole <= |ss| && |EncodeAll(ss[..whole])| + part <= Room(rest)
      && if part == 0 then whole >= 1
         else whole < |ss| && 2 <= part < |Encode(ss[whole])| && |EncodeAll(ss[..whole])| + part == Room(rest)
  }

  function PayloadOf(f: Fill, rest: seq<Byte>, ss: seq<Sndu>): (b: seq<Byte>)
    requires AllSndus(ss) && FillOk(f, rest, ss)
    ensures |b| == PAYLOAD_SIZE
  {
    match f
    case Continue =>
      if |rest| >= PAYLOAD_SIZE then rest[..PAYLOAD_SIZE] else rest + Pad(PAYLOAD_SIZE - |rest|)
    case Start(whole, part) => [|rest|] + rest + Packed(f, rest, ss)
  }

  function Packed(f: Fill, rest: seq<Byte>, ss: seq<Sndu>): (b: seq<Byte>)
    requires AllSndus(ss) && f.Start? && FillOk(f, rest, ss)
    ensures |b| == Room(rest)
  {
    var whole := EncodeAll(ss[..f.whole]);
    whole + if f.part == 0 then Pad(Room(rest) - |whole|) else Encode(ss[f.whole])[..f.part]
  }

  function RestAfter(f: Fill, rest: seq<Byte>, ss: seq<Sndu>): seq<Byte>
    requires AllSndus(ss) && FillOk(f, rest, ss)
  {
    match f
    case Continue => rest[Min(PAYLOAD_SIZE, |rest|)..]
    case Start(whole, part) => if part == 0 then [] else Encode(ss[whole])[part..]
  }

  function SndusAfter(f: Fill, ss: seq<Sndu>): seq<Sndu>
    requires f.Start? ==> f.whole <= |ss| && (f.part > 0 ==> f.whole < |ss|)
  {
    match f
    case Continue => ss
    case Start(whole, part) => ss[if part == 0 then whole else whole + 1..]
  }

  function Cell(pusi: bool, pid: nat, cc: nat, payload: seq<Byte>): (c: seq<Byte>)
    requires pid < 0x2000 && cc < 0x10 && |payload| == PAYLOAD_SIZE
    ensures |c| == TS_SZ && c[4..] == payload
  {
    [0x47, (if pusi then 0x40 else 0) + pid / 0x100, pid % 0x100, 0x10 + cc] + payload
  }

  predicate FillsOk(fs: seq<Fill>, rest: seq<Byte>, ss: seq<Sndu>)
    requires AllSndus(ss)
    decreases |fs|
  {
    if fs == [] then rest == [] && ss == []
    else FillOk(fs[0], rest, ss) && FillsOk(fs[1..], RestAfter(fs[0], rest, ss), SndusAfter(fs[0], ss))
  }

  /** `rest` of an SNDU already begun, then `ss`; counters follow on `cc`. */
  function Encapsulate(pid: nat, fs: seq<Fill>, rest: seq<Byte>, ss: seq<Sndu>, cc: nat): (cs: seq<seq<Byte>>)
    requires AllSndus(ss) && FillsOk(fs, rest, ss) && pid < 0x2000
    decreases |fs|
  {
    if fs == [] then [] else
      [Cell(fs[0].Start?, pid, (cc + 1) % 0x10, PayloadOf(fs[0], rest, ss))]
      + Encapsulate(pid, fs[1..], RestAfter(fs[0], rest, ss), SndusAfter(fs[0], ss), (cc + 1) % 0x10)
  }

  // ---------------------------------------------------------------------------------------------
  // The round trip
  // ---------------------------------------------------------------------------------------------

  /** The decoder has received `got` of an SNDU, and `rest` of it is still to come. */
  predicate Halfway(got: seq<Byte>, rest: seq<Byte>, current: Sndu) {
    if got == [] then rest == []
    else IsSndu(current) && got + rest == Encode(current) && |got| >= 2 && rest != []
  }

  lemma HalfwayNeed(got: seq<Byte>, rest: seq<Byte>, current: Sndu)
    requires Halfway(got, rest, current)
    ensures Started(got) && (got != [] ==> Total(got) - |got| == |rest|)
  {
    hide Encode;
    if got != [] {
      EncodedFields(current);
      assert Length(got) == Length(Encode(current));
    }
  }

  lemma PaddingEnds(n: nat)
    ensures Next(Pad(n)) == Out([], [])
  {
    hide Take, Begin;
    assert Padding(Pad(n));
  }

  /** The SNDUs that start in a cell. */
  lemma PackedIn(f: Fill, rest: seq<Byte>, ss: seq<Sndu>)
    requires AllSndus(ss) && f.Start? && FillOk(f, rest, ss)
    ensures var b := Packed(f, rest, ss);
            var got := if f.part == 0 then [] else Encode(ss[f.whole])[..f.part];
            Next(b) == Out(got, ss[..f.whole]) && Begin(b) == Next(b)
  {
    hide Next, Begin, Encode, EncodeAll;
    var x := if f.part == 0 then Pad(Room(rest) - |EncodeAll(ss[..f.whole])|) else Encode(ss[f.whole])[..f.part];
    NextAll(ss[..f.whole], x);
    if f.part == 0 { PaddingEnds(|x|); } else { NextPart(ss[f.whole], f.part); }
    assert ss[..f.whole] + [] == ss[..f.whole];
    if f.whole == 0 { assert EncodeAll(ss[..f.whole]) + x == x by { NoneEncoded(ss[..f.whole], x); } }
  }

  lemma NoneEncoded(ss: seq<Sndu>, x: seq<Byte>)
    requires ss == []
    ensures EncodeAll(ss) + x == x
  {
  }

  /** The SNDU in progress, if there is one. */
  function InProgress(rest: seq<Byte>, current: Sndu): seq<Sndu> {
    if rest == [] then [] else [current]
  }

  /** What is in progress after a cell, and what the cell has completed. */
  function CurrentAfter(f: Fill, ss: seq<Sndu>, current: Sndu): Sndu
    requires f.Start? && f.part > 0 ==> f.whole < |ss|
  {
    if f.Start? && f.part > 0 then ss[f.whole] else current
  }

  function Completed(f: Fill, rest: seq<Byte>, ss: seq<Sndu>, current: Sndu): seq<Sndu>
    requires f.Start? ==> f.whole <= |ss|
  {
    match f
    case Continue => if |rest| <= PAYLOAD_SIZE then [current] else []
    case Start(whole, part) => InProgress(rest, current) + ss[..whole]
  }

  lemma ContinueIn(got: seq<Byte>, rest: seq<Byte>, current: Sndu)
    requires Halfway(got, rest, current) && rest != []
    ensures var x := if |rest| >= PAYLOAD_SIZE then rest[..PAYLOAD_SIZE] else rest + Pad(PAYLOAD_SIZE - |rest|);
            var got' := if |rest| <= PAYLOAD_SIZE then [] else got + rest[..PAYLOAD_SIZE];
            && Started(got)
            && Take(got, x) == Out(got', if |rest| <= PAYLOAD_SIZE then [current] else [])
            && Halfway(got', rest[Min(PAYLOAD_SIZE, |rest|)..], current)
  {
    hide Next, Encode, Gate;
    HalfwayNeed(got, rest, current);
    if |rest| <= PAYLOAD_SIZE {
      var pad := Pad(PAYLOAD_SIZE - |rest|);
      TakeEnd(current, got, rest, pad);
      PaddingEnds(|pad|);
      assert [current] + [] == [current];
      if |rest| == PAYLOAD_SIZE { assert rest + pad == rest[..PAYLOAD_SIZE]; }
    } else {
      assert got + rest[..PAYLOAD_SIZE] + rest[PAYLOAD_SIZE..] == got + rest;
    }
  }

  lemma OnFill(s: State, f: Fill, rest: seq<Byte>, ss: seq<Sndu>, current: Sndu, pid: nat, cc: nat) returns (got: seq<Byte>)
    requires AllSndus(ss) && FillOk(f, rest, ss) && Halfway(s.got, rest, current) && pid < 0x2000 && cc < 0x10
    requires s.got != [] ==> s.tscc == cc
    ensures var c := Cell(f.Start?, pid, cc, PayloadOf(f, rest, ss));
            IsCell(c) && Started(s.got)
            && OnCell(s, c) == Result(State(got, (cc + 1) % 0x10), Completed(f, rest, ss, current))
    ensures Halfway(got, RestAfter(f, rest, ss), CurrentAfter(f, ss, current))
  {
    hide Next, Begin, Take, Encode, EncodeAll, Packed, Gate;
    HalfwayNeed(s.got, rest, current);
    var payload := PayloadOf(f, rest, ss);
    var c := Cell(f.Start?, pid, cc, payload);
    if f.Continue? {
      ContinueCell(f, rest, ss, pid, cc);
      ContinueIn(s.got, rest, current);
      got := if |rest| <= PAYLOAD_SIZE then [] else s.got + rest[..PAYLOAD_SIZE];
    } else {
      var packed := Packed(f, rest, ss);
      StartCell(f, rest, ss, pid, cc);
      PackedIn(f, rest, ss);
      got := if f.part == 0 then [] else Encode(ss[f.whole])[..f.part];
      if f.part > 0 { AllSndusAt(ss, f.whole); assert got + Encode(ss[f.whole])[f.part..] == Encode(ss[f.whole]); }
      if rest == [] {
        assert [] + ss[..f.whole] == ss[..f.whole];
        assert c[5..] == [] + packed == packed;
      } else {
        TakeEnd(current, s.got, rest, packed);
      }
    }
  }

  lemma AllSndusAt(ss: seq<Sndu>, k: nat)
    requires AllSndus(ss) && k < |ss|
    ensures IsSndu(ss[k])
  {
  }

  lemma ContinueCell(f: Fill, rest: seq<Byte>, ss: seq<Sndu>, pid: nat, cc: nat)
    requires AllSndus(ss) && FillOk(f, rest, ss) && f.Continue? && pid < 0x2000 && cc < 0x10
    ensures var c := Cell(false, pid, cc, PayloadOf(f, rest, ss));
            IsCell(c) && CellValid(c) && !Pusi(c) && c[3] % 0x10 == cc && c[4..] == PayloadOf(f, rest, ss)
  {
    hide PayloadOf;
  }

  lemma StartCell(f: Fill, rest: seq<Byte>, ss: seq<Sndu>, pid: nat, cc: nat)
    requires AllSndus(ss) && FillOk(f, rest, ss) && f.Start? && pid < 0x2000 && cc < 0x10
    ensures var c := Cell(true, pid, cc, PayloadOf(f, rest, ss));
            && IsCell(c) && CellValid(c) && Pusi(c) && c[3] % 0x10 == cc && c[4] == |rest| < PAYLOAD_SIZE - 1
            && c[5..] == rest + Packed(f, rest, ss)
  {
    hide Packed, EncodeAll, Encode;
    RoomLeft(f, rest, ss);
    var c := Cell(true, pid, cc, PayloadOf(f, rest, ss));
    assert PayloadOf(f, rest, ss) == [|rest|] + rest + Packed(f, rest, ss);
    assert c[4..] == PayloadOf(f, rest, ss);
    assert c[5..] == c[4..][1..];
  }

  lemma RoomLeft(f: Fill, rest: seq<Byte>, ss: seq<Sndu>)
    requires AllSndus(ss) && FillOk(f, rest, ss) && f.Start?
    ensures |rest| < PAYLOAD_SIZE - 1
  {
    hide Encode;
    if f.whole > 0 {
      assert EncodeAll(ss[..f.whole]) == Encode(ss[..f.whole][0]) + EncodeAll(ss[..f.whole][1..]);
    }
  }

  /** Everything sent is received, once and in order. */
  lemma {:induction false} RoundTrip(s: State, pid: nat, fs: seq<Fill>, rest: seq<Byte>, ss: seq<Sndu>, current: Sndu, cc: nat)
    requires AllSndus(ss) && FillsOk(fs, rest, ss) && Halfway(s.got, rest, current) && pid < 0x2000
    requires s.got != [] ==> s.tscc == (cc + 1) % 0x10
    ensures Started(s.got) && AllCells(Encapsulate(pid, fs, rest, ss, cc))
    ensures OnCells(s, Encapsulate(pid, fs, rest, ss, cc)).delivered == InProgress(rest, current) + ss
    decreases |fs|
  {
    hide OnCell, Cell, FillOk, PayloadOf, RestAfter, SndusAfter, Halfway, Encode, InProgress, Completed;
    HalfwayNeed(s.got, rest, current);
    if fs == [] {
      NothingSent(s, rest, ss, current);
    } else {
      var f := fs[0];
      var got := OnFill(s, f, rest, ss, current, pid, (cc + 1) % 0x10);
      var s' := State(got, ((cc + 1) % 0x10 + 1) % 0x10);
      var c := Cell(f.Start?, pid, (cc + 1) % 0x10, PayloadOf(f, rest, ss));
      FillBounds(f, rest, ss);
      SplitSndus(f, rest, ss, current);
      var rest', ss' := RestAfter(f, rest, ss), SndusAfter(f, ss);
      RoundTrip(s', pid, fs[1..], rest', ss', CurrentAfter(f, ss, current), (cc + 1) % 0x10);
      var later := Encapsulate(pid, fs[1..], rest', ss', (cc + 1) % 0x10);
      assert Encapsulate(pid, fs, rest, ss, cc) == [c] + later;
      OnCellsFirst(s, c, later);
    }
  }

  lemma NothingSent(s: State, rest: seq<Byte>, ss: seq<Sndu>, current: Sndu)
    requires Started(s.got) && rest == [] && ss == []
    ensures OnCells(s, []).delivered == InProgress(rest, current) + ss
  {
  }

  lemma FillBounds(f: Fill, rest: seq<Byte>, ss: seq<Sndu>)
    requires AllSndus(ss) && FillOk(f, rest, ss)
    ensures f.Start? ==> f.whole <= |ss| && (f.part > 0 ==> f.whole < |ss|)
  {
  }

  /** What a cell completes, what it begins, and the rest. */
  lemma SplitSndus(f: Fill, rest: seq<Byte>, ss: seq<Sndu>, current: Sndu)
    requires AllSndus(ss) && FillOk(f, rest, ss)
    ensures var rest', ss' := RestAfter(f, rest, ss), SndusAfter(f, ss);
            && AllSndus(ss')
            && Completed(f, rest, ss, current) + (InProgress(rest', CurrentAfter(f, ss, current)) + ss')
               == InProgress(rest, current) + ss
  {
    hide EncodeAll, Encode;
    var p := InProgress(rest, current);
    match f
    case Continue =>
    case Start(whole, part) =>
      if part == 0 {
        assert p + ss[..whole] + ([] + ss[whole..]) == p + ss;
      } else {
        assert ss == ss[..whole] + ([ss[whole]] + ss[whole + 1..]);
        assert p + ss[..whole] + ([ss[whole]] + ss[whole + 1..]) == p + ss;
      }
  }

  /** Cells in one buffer. */
  lemma {:induction false} CellsOfConcat(cs: seq<seq<Byte>>)
    requires AllCells(cs)
    ensures |Concat(cs)| % TS_SZ == 0 && Cells(Concat(cs)) == cs
  {
    hide IsCell;
    if cs != [] {
      CellSize(cs);
      CellsOfConcat(cs[1..]);
      var b := Concat(cs);
      assert b == cs[0] + Concat(cs[1..]);
      assert b[..TS_SZ] == cs[0] && b[TS_SZ..] == Concat(cs[1..]);
      assert cs == [cs[0]] + cs[1..];
    }
  }

  lemma CellSize(cs: seq<seq<Byte>>)
    requires cs != [] && AllCells(cs)
    ensures |cs[0]| == TS_SZ && AllCells(cs[1..])
  {
  }

  /** The round trip on the object: a new decoder is given the cells in one buffer. */
  method PlayBack(pid: nat, fs: seq<Fill>, ss: seq<Sndu>, cc: nat) returns (ule: DvbNetUle)
    requires AllSndus(ss) && FillsOk(fs, [], ss) && pid < 0x2000
    ensures ule.AtCell() && ule.delivered == ss
  {
    hide FillsOk, Encapsulate, OnCells, Cells, IsSndu, Concat, DvbNetUle.AtCell;
    ghost var none := Sndu(false, 0, []);
    RoundTrip(State([], 0), pid, fs, [], ss, none, cc);
    var cells := Encapsulate(pid, fs, [], ss, cc);
    CellsOfConcat(cells);
    ule := new DvbNetUle();
    ule.Ule(Concat(cells));
    assert InProgress([], none) + ss == ss;
  }
}
