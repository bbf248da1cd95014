/**
 * The ULE decapsulator of neumo-dvb-net.c (RFC 4326): SNDUs are collected from the cells of one
 * PID, with a length field that is never split and a type field and body that may be.
 */
module Ule {
  import opened Bytes
  import opened Crc

  const TS_SZ := 188
  const TS_SYNC: Byte := 0x47
  const PAYLOAD_SIZE := 184
  const HEADER_SIZE := 4
  const CRC_SIZE := 4
  const MIN_SNDU_LEN := 5

  // ---------------------------------------------------------------------------------------------
  // SNDUs
  // ---------------------------------------------------------------------------------------------

  /** The length field without the D bit, for an SNDU of which at least that much is there. */
  function Length(b: seq<Byte>): nat
    requires |b| >= 2
  {
    Be16(b[0] % 0x80, b[1])
  }

  /** Length and type field, and what the length counts. */
  function Total(b: seq<Byte>): nat
    requires |b| >= 2
  {
    HEADER_SIZE + Length(b)
  }

  datatype Sndu = Sndu(dbit: bool, kind: nat, body: seq<Byte>)

  /** What the CRC gate lets through of a complete SNDU: the checksum covers length, type and body. */
  function Gate(b: seq<Byte>): seq<Sndu>
    requires |b| >= HEADER_SIZE + CRC_SIZE
  {
    var n := |b| - CRC_SIZE;
    if Crc32(0xffff_ffff, b[..n]) != Word(b[n], b[n + 1], b[n + 2], b[n + 3]) then []
    else [Sndu(b[0] >= 0x80, Be16(b[2], b[3]), b[HEADER_SIZE..n])]
  }

  // ---------------------------------------------------------------------------------------------
  // One cell
  // ---------------------------------------------------------------------------------------------

  /** `got` is the part received of the SNDU in progress, [] if there is none. */
  datatype Out = Out(got: seq<Byte>, delivered: seq<Sndu>)

  predicate Started(got: seq<Byte>) {
    got != [] ==> |got| >= 2 && Length(got) >= MIN_SNDU_LEN && |got| < Total(got)
  }

  /** Two bytes of 0xff instead of a length, or fewer than two bytes: the rest of the cell is padding. */
  predicate Padding(x: seq<Byte>) {
    |x| < 2 || (x[0] == 0xff && x[1] == 0xff)
  }

  /** Bytes of the SNDU in progress, and whatever is packed behind it. */
  function Take(got: seq<Byte>, x: seq<Byte>): (r: Out)
    requires got != [] && Started(got)
    ensures Started(r.got)
    decreases |x|, 1
  {
    var need := Total(got) - |got|;
    if |x| < need then Out(got + x, [])
    else
      var whole := got + x[..need];
      var rest := Next(x[need..]);
      Out(rest.got, Gate(whole) + rest.delivered)
  }

  /** Behind an SNDU: another one, or padding. */
  function Next(x: seq<Byte>): (r: Out)
    ensures Started(r.got)
    decreases |x|, 2
  {
    if Padding(x) then Out([], []) else Begin(x)
  }

  /** A new SNDU; a length that is too small sends the decoder back to waiting. */
  function Begin(x: seq<Byte>): (r: Out)
    ensures Started(r.got)
    decreases |x|, 0
  {
    if |x| < 2 || Length(x) < MIN_SNDU_LEN then Out([], []) else Take(x[..2], x[2..])
  }

  // ---------------------------------------------------------------------------------------------
  // Cells
  // ---------------------------------------------------------------------------------------------

  /** `tscc` is the counter expected next; without an SNDU in progress the decoder waits for a start. */
  datatype State = State(got: seq<Byte>, tscc: int)

  datatype Result = Result(state: State, delivered: seq<Sndu>)

  predicate Pusi(c: seq<Byte>)
    requires |c| == TS_SZ
  {
    c[1] / 0x40 % 2 == 1
  }

  predicate CellValid(c: seq<Byte>)
    requires |c| == TS_SZ
  {
    c[0] == TS_SYNC && c[1] < 0x80 && c[3] < 0x40
  }

  /** A cell that is read inside its bounds; see `StaysInsideExactlyWhen`. */
  predicate IsCell(c: seq<Byte>) {
    |c| == TS_SZ && (Pusi(c) ==> c[4] != PAYLOAD_SIZE)
  }

  /** Bytes the decoder takes to be left behind the pointer target: ts_remain has 8 bits. */
  function RemainBehind(pointer: Byte): Byte {
    (PAYLOAD_SIZE - (1 + pointer)) % 0x100
  }

  /** The decoder accepts the pointer of the cell and takes bytes past its end for its payload. */
  predicate ReadsPastEnd(c: seq<Byte>)
    requires |c| == TS_SZ
  {
    Pusi(c) && c[4] <= PAYLOAD_SIZE && 5 + c[4] + RemainBehind(c[4]) > TS_SZ
  }

  /**
   * Larger pointers are refused and smaller ones leave exactly the rest of the cell: the one value
   * that is accepted although it points behind the cell is 184.
   */
  lemma StaysInsideExactlyWhen(c: seq<Byte>)
    requires |c| == TS_SZ
    ensures !ReadsPastEnd(c) <==> IsCell(c)
    ensures IsCell(c) && Pusi(c) && c[4] <= PAYLOAD_SIZE ==> 5 + c[4] + RemainBehind(c[4]) == TS_SZ
  {
    if c[4] < PAYLOAD_SIZE {
      assert 0 <= PAYLOAD_SIZE - (1 + c[4]) < 0x100;
    } else if c[4] == PAYLOAD_SIZE {
      assert RemainBehind(c[4]) == 0xff;
    }
  }

  /** From a cell start on, if the cell has one. */
  function Resync(tscc: int, c: seq<Byte>): Result
    requires IsCell(c)
  {
    if !Pusi(c) then Result(State([], tscc), [])
    else if c[4] > PAYLOAD_SIZE then Result(State([], c[3] % 0x10), [])
    else
      var r := Begin(c[5 + c[4]..]);
      Result(State(r.got, (c[3] % 0x10 + 1) % 0x10), r.delivered)
  }

  function OnCell(s: State, c: seq<Byte>): Result
    requires Started(s.got) && IsCell(c)
  {
    if !CellValid(c) then Result(State([], s.tscc), [])
    else if s.got == [] || c[3] % 0x10 != s.tscc then Resync(s.tscc, c)
    else if !Pusi(c) then
      var r := Take(s.got, c[4..]);
      Result(State(r.got, (s.tscc + 1) % 0x10), r.delivered)
    else if c[4] < PAYLOAD_SIZE - 1 && c[4] == Total(s.got) - |s.got| then
      var r := Take(s.got, c[5..]);
      Result(State(r.got, (s.tscc + 1) % 0x10), r.delivered)
    else Resync((s.tscc + 1) % 0x10, c)
  }

  /**
   * In the middle of an SNDU a cell without a start adds its 184 bytes exactly when it is in order: in
   * sync, without the error indicator, not scrambled, and the next one by its counter. Otherwise the
   * SNDU is given up, and nothing is delivered.
   */
  lemma MiddleCell(s: State, c: seq<Byte>)
    requires Started(s.got) && s.got != [] && IsCell(c) && c[1] / 0x40 % 2 == 0
    ensures if c[0] == 0x47 && c[1] / 0x80 == 0 && c[3] / 0x40 == 0 && c[3] % 0x10 == s.tscc then
              var r := Take(s.got, c[4..]); OnCell(s, c) == Result(State(r.got, (s.tscc + 1) % 0x10), r.delivered)
            else OnCell(s, c) == Result(State([], s.tscc), [])
  {
    hide Take, Begin;
  }

  /** Whatever else it has, a cell that is not in order ends the SNDU in progress. */
  lemma BadCell(s: State, c: seq<Byte>)
    requires Started(s.got) && IsCell(c)
    requires c[0] != 0x47 || c[1] / 0x80 == 1 || c[3] / 0x40 != 0
    ensures OnCell(s, c) == Result(State([], s.tscc), [])
  {
  }

  /**
   * A cell with a start, in order: the SNDU in progress goes on exactly when the pointer field is
   * the number of bytes missing of it, with room for another behind them. Otherwise it is given up, and
   * what the field points to begins.
   */
  lemma StartCell(s: State, c: seq<Byte>)
    requires Started(s.got) && s.got != [] && IsCell(c) && c[1] / 0x40 % 2 == 1
    requires c[0] == 0x47 && c[1] / 0x80 == 0 && c[3] / 0x40 == 0 && c[3] % 0x10 == s.tscc
    ensures var next, missing := (s.tscc + 1) % 0x10, 4 + Be16(s.got[0] % 0x80, s.got[1]) - |s.got|;
            if c[4] == missing && missing < 183 then
              var r := Take(s.got, c[5..]); OnCell(s, c) == Result(State(r.got, next), r.delivered)
            else if c[4] < 184 then
              var r := Begin(c[5 + c[4]..]); OnCell(s, c) == Result(State(r.got, next), r.delivered)
            else OnCell(s, c) == Result(State([], s.tscc), [])
  {
    hide Take, Begin;
  }

  /** A length below 5, which cannot be, ends the cell; so do fewer than two bytes, or two of 0xff. */
  lemma NoSndu(x: seq<Byte>)
    requires |x| < 2 || Be16(x[0] % 0x80, x[1]) < 5 || (x[0] == 0xff && x[1] == 0xff)
    ensures Next(x) == Out([], [])
  {
  }

  function OnCells(s: State, cs: seq<seq<Byte>>): Result
    requires Started(s.got) && forall i :: 0 <= i < |cs| ==> IsCell(cs[i])
    decreases |cs|
  {
    if cs == [] then Result(s, []) else
      OnCellStarted(s, cs[0]);
      var first := OnCell(s, cs[0]);
      var rest := OnCells(first.state, cs[1..]);
      Result(rest.state, first.delivered + rest.delivered)
  }

  lemma OnCellStarted(s: State, c: seq<Byte>)
    requires Started(s.got) && IsCell(c)
    ensures Started(OnCell(s, c).state.got)
  {
    hide Take, Begin;
  }
}
