/**
 * The BBFrame extractor of neumo-dvb-demux.c: user packets are cut out of the data fields of
 * baseband frames (sections 5.1.4 to 5.1.6 of EN 302 307-1; high efficiency mode as in section
 * 5.1.8 of EN 302 755), across frames and whatever the size of the pieces they arrive in.
 */
module BbFrames {
  import opened Bytes
  import opened Crc

  const TS_SIZE := 188
  const SYNC: Byte := 0x47
  const BUFF_SIZE := 200

  // ---------------------------------------------------------------------------------------------
  // One byte at a time
  // ---------------------------------------------------------------------------------------------

  /**
   * `left` bytes of the data field are still to come. Until it is `synced` the extractor has
   * skipped `skip` bytes towards the first user packet; from then on `got` is what it has of the
   * current one. `crc` is the checksum of the packet so far, -1 before the first.
   */
  datatype State = State(hem: bool, syncd: nat, left: int, synced: bool, skip: nat, got: seq<Byte>, crc: int)

  datatype Out = Out(v: State, packets: seq<seq<Byte>>, ok: bool)

  /** Nothing received yet. */
  function FreshState(): State {
    State(false, 0, 0, false, 0, [], -1)
  }

  predicate Regular(v: State) {
    && -1 <= v.crc < 256 && |v.got| < TS_SIZE && (v.got != [] ==> v.got[0] == SYNC)
    && (v.synced ==> v.skip == 0 && (v.hem ==> v.got != []) && (!v.hem && v.got != [] ==> v.crc >= 0))
    && (!v.synced ==> v.got == [])
  }

  /** At the start of a user packet. In high efficiency mode its sync byte is not sent. */
  function AtStart(v: State): State {
    v.(synced := true, skip := 0, got := if v.hem then [SYNC] else [])
  }

  function Collect(v: State, b: Byte): Out {
    var got := v.got + [b];
    var w := v.(left := v.left - 1);
    if |got| == TS_SIZE then Out(AtStart(w), [got], true) else Out(w.(got := got), [], true)
  }

  function StepSynced(v: State, b: Byte): Out
    requires Regular(v)
  {
    if v.hem then
      if v.left <= 0 then Out(v, [], true)                     // padding
      else Collect(v, b)
    else if v.got == [] then
      if v.crc >= 0 && v.crc != b then Out(v, [], false)       // checksum of the packet before
      else Out(v.(crc := 0, got := [SYNC], left := v.left - 1), [], true)
    else Collect(v.(crc := Crc8Byte(v.crc, b)), b)
  }

  function Step(v: State, b: Byte): Out
    requires Regular(v)
  {
    if v.synced then StepSynced(v, b)
    else if v.skip > v.syncd then Out(v, [], true)             // never recovers by itself
    else if v.skip == v.syncd then StepSynced(AtStart(v), b)
    else if v.left <= 0 then Out(v, [], false)
    else
      var w := v.(skip := v.skip + 1, left := v.left - 1);
      Out(if w.skip == w.syncd then AtStart(w) else w, [], true)
  }

  lemma StepRegular(v: State, b: Byte)
    requires Regular(v)
    ensures Regular(Step(v, b).v) && Step(v, b).v.hem == v.hem
  {
  }

  function Fold(v: State, x: seq<Byte>): Out
    requires Regular(v)
    decreases |x|
  {
    if x == [] then Out(v, [], true) else
      StepRegular(v, x[0]);
      var first := Step(v, x[0]);
      if !first.ok then first else
        var rest := Fold(first.v, x[1..]);
        Out(rest.v, first.packets + rest.packets, rest.ok)
  }

  lemma {:induction false} FoldRegular(v: State, x: seq<Byte>)
    requires Regular(v)
    ensures Regular(Fold(v, x).v) && Fold(v, x).v.hem == v.hem
    decreases |x|
  {
    hide Step, Regular;
    if x != [] {
      StepRegular(v, x[0]);
      FoldRegular(Step(v, x[0]).v, x[1..]);
    }
  }

  /** The pieces a data field arrives in do not matter. */
  lemma {:induction false} FoldSplit(v: State, x: seq<Byte>, y: seq<Byte>)
    requires Regular(v)
    ensures Regular(Fold(v, x).v)
    ensures Fold(v, x).ok ==>
              Fold(v, x + y) == Out(Fold(Fold(v, x).v, y).v, Fold(v, x).packets + Fold(Fold(v, x).v, y).packets, Fold(Fold(v, x).v, y).ok)
    ensures !Fold(v, x).ok ==> Fold(v, x + y) == Fold(v, x)
    decreases |x|
  {
    hide Step, Regular;
    FoldRegular(v, x);
    if x == [] {
      assert x + y == y;
    } else {
      StepRegular(v, x[0]);
      assert (x + y)[0] == x[0] && (x + y)[1..] == x[1..] + y;
      if Step(v, x[0]).ok {
        FoldSplit(Step(v, x[0]).v, x[1..], y);
      }
    }
  }

  // ---------------------------------------------------------------------------------------------
  // Many bytes at a time
  // ---------------------------------------------------------------------------------------------

  /** Bytes before the first user packet. */
  lemma {:induction false} FoldSkip(v: State, x: seq<Byte>)
    requires Regular(v) && !v.synced && v.skip + |x| <= v.syncd && |x| <= v.left
    ensures var w := v.(skip := v.skip + |x|, left := v.left - |x|);
            Fold(v, x) == Out(if x != [] && w.skip == w.syncd then AtStart(w) else w, [], true)
    decreases |x|
  {
    if x != [] {
      var w := v.(skip := v.skip + 1, left := v.left - 1);
      if w.skip < w.syncd { FoldSkip(w, x[1..]); }
    }
  }

  /** Padding runs into the search for the first user packet. */
  lemma {:induction false} FoldSkipFails(v: State, x: seq<Byte>)
    requires Regular(v) && !v.synced && 0 <= v.left < |x| && v.skip + v.left < v.syncd
    ensures !Fold(v, x).ok
  {
    var n := v.left;
    FoldSkip(v, x[..n]);
    FoldSplit(v, x[..n], x[n..]);
    assert x == x[..n] + x[n..];
  }

  lemma {:induction false} FoldStuck(v: State, x: seq<Byte>)
    requires Regular(v) && !v.synced && v.skip > v.syncd
    ensures Fold(v, x) == Out(v, [], true)
    decreases |x|
  {
    if x != [] { FoldStuck(v, x[1..]); }
  }

  lemma {:induction false} FoldPadding(v: State, x: seq<Byte>)
    requires Regular(v) && v.synced && v.hem && v.left <= 0
    ensures Fold(v, x) == Out(v, [], true)
    decreases |x|
  {
    if x != [] { FoldPadding(v, x[1..]); }
  }

  /** Data inside one user packet. */
  lemma {:induction false} FoldCollect(v: State, x: seq<Byte>)
    requires Regular(v) && v.synced && v.got != [] && |v.got| + |x| <= TS_SIZE && (v.hem ==> |x| <= v.left)
    ensures var crc := if v.hem then v.crc else Crc8(v.crc, x);
            var w := v.(left := v.left - |x|, crc := crc);
            Fold(v, x) == if |v.got| + |x| == TS_SIZE then Out(AtStart(w), [v.got + x], true)
                          else Out(w.(got := v.got + x), [], true)
    decreases |x|
  {
    hide Crc8Byte;
    if x == [] {
      assert v.got + x == v.got;
    } else {
      Associative(v.got, [x[0]], x[1..]);
      assert x == [x[0]] + x[1..];
      var first := Step(v, x[0]);
      assert first == Collect(if v.hem then v else v.(crc := Crc8Byte(v.crc, x[0])), x[0]);
      if |x| > 1 {
        FoldCollect(first.v, x[1..]);
      } else {
        assert x == [x[0]] && x[1..] == [];
        assert v.hem || Crc8(v.crc, x) == Crc8Byte(v.crc, x[0]);
      }
    }
  }

  // ---------------------------------------------------------------------------------------------
  // The stream object
  // ---------------------------------------------------------------------------------------------

  class BbframesStream {
    var isi: int
    var matype: int
    var upl: int
    var dfl: nat
    var syncd: nat
    var issy: nat
    var bbfCrc8: int
    var bbfPayloadBytesLeft: int
    var hemMode: bool
    var numCrcErrors: nat
    var tsSynced: bool
    var buffIdx: nat
    const buff: array<Byte>
    /** The transport packets passed on to the feeds, in order. */
    var output: seq<seq<Byte>>

    ghost predicate Valid()
      reads this, buff
    {
      && buff.Length == BUFF_SIZE && -1 <= bbfCrc8 < 256
      && (tsSynced ==> buffIdx < TS_SIZE && (buffIdx > 0 ==> buff[0] == SYNC) && (!hemMode && buffIdx > 0 ==> bbfCrc8 >= 0))
    }

    ghost function View(): (v: State)
      requires Valid()
      reads this, buff
      ensures Regular(v) && v.synced == tsSynced && v.hem == hemMode && v.left == bbfPayloadBytesLeft
    {
      State(hemMode, syncd, bbfPayloadBytesLeft, tsSynced, if tsSynced then 0 else buffIdx,
           if !tsSynced then [] else if hemMode && buffIdx == 0 then [SYNC] else buff[..buffIdx], bbfCrc8)
    }

    /** The stream is in state `v` and has passed on `packets`. */
    ghost predicate Shows(v: State, packets: seq<seq<Byte>>)
      reads this, buff
    {
      Valid() && View() == v && output == packets
    }

    ghost predicate New()
      reads this, buff
    {
      Shows(FreshState(), [])
    }

    /** bbframes_stream_init */
    constructor (isi: int)
      ensures New() && fresh(buff) && this.isi == isi
    {
      this.isi := isi;
      buff := new Byte[BUFF_SIZE];
      matype, upl, dfl, syncd, issy := -1, -1, 0, 0, 0;
      bbfCrc8, bbfPayloadBytesLeft, hemMode, numCrcErrors := -1, 0, false, 0;
      tsSynced, buffIdx, output := false, 0, [];
    }

    /** bbframes_stream_reset; `syncd` is set again by the next header, before it is looked at. */
    method Reset()
      requires Valid()
      modifies `matype, `upl, `dfl, `syncd, `issy, `bbfCrc8, `bbfPayloadBytesLeft, `hemMode, `tsSynced, `buffIdx
      ensures Valid() && View() == FreshState()
    {
      tsSynced, buffIdx := false, 0;
      matype, upl, dfl, syncd, issy := -1, -1, 0, 0, 0;
      bbfCrc8, bbfPayloadBytesLeft, hemMode := -1, 0, false;
    }

    /** parse_bbheader; lengths are sent in bits. */
    method ParseBbheader(hem: bool, isi: int, header: seq<Byte>)
      requires Valid() && |header| == 10
      requires tsSynced ==> hem == hemMode
      modifies `hemMode, `matype, `isi, `dfl, `issy, `upl, `syncd, `bbfPayloadBytesLeft
      ensures Valid() && View() == OnHeader(old(View()), hem, header)
      ensures upl == if hem then TS_SIZE else Be16(header[2], header[3]) / 8
    {
      hemMode := hem;
      matype := header[0];
      this.isi := isi;
      dfl := Be16(header[4], header[5]) / 8;
      if hem {
        issy := header[2] as int * 0x1_0000 + Be16(header[3], header[6]);
        upl := TS_SIZE;
        bbfPayloadBytesLeft := dfl;
      } else {
        upl := Be16(header[2], header[3]) / 8;
        issy := 0;
        bbfPayloadBytesLeft := dfl;
      }
      syncd := Be16(header[7], header[8]) / 8;
    }

    /** The first part of bbf_output_ts_bytes: skips towards the first user packet. */
    method SkipToFirst(p: seq<Byte>) returns (ok: bool, n: int)
      requires Valid() && !tsSynced && p != [] && bbfPayloadBytesLeft >= 0
      modifies `tsSynced, `buffIdx, `bbfPayloadBytesLeft
      ensures Valid() && bbfPayloadBytesLeft >= 0
      ensures ok && n >= 0 ==> n <= |p| && (tsSynced || n == |p|) && bbfPayloadBytesLeft == old(bbfPayloadBytesLeft) - n
      ensures ok && n >= 0 ==> Owes(old(View()), p, [], View(), p[n..], [])
      ensures ok && n < 0 ==> Fold(old(View()), p) == Out(View(), [], true)
      ensures !ok ==> !Fold(old(View()), p).ok
    {
      hide Fold;
      ghost var v := View();
      n := Min(syncd - buffIdx, |p|);
      if n < 0 {
        FoldStuck(v, p);
        return true, n;
      }
      buffIdx := buffIdx + n;
      if buffIdx == syncd {
        tsSynced := true;
        buffIdx := 0;
      }
      bbfPayloadBytesLeft := bbfPayloadBytesLeft - n;
      if bbfPayloadBytesLeft < 0 {
        bbfPayloadBytesLeft := 0;
        ok := false;
        FoldSkipFails(v, p[..n]);
        FoldSplit(v, p[..n], p[n..]);
        assert p == p[..n] + p[n..];
        return;
      }
      ok := true;
      FoldSkip(v, p[..n]);
      if n > 0 {
        Progress(v, p[..n], p[n..]);
        assert p == p[..n] + p[n..];
      } else {
        FoldFromStart(v, p);
        assert p[0..] == p;
      }
    }

    /** Data of the current user packet: memcpy, checksum, and the packet passed on when complete. */
    method CollectBytes(x: seq<Byte>)
      requires Valid() && tsSynced && 1 <= buffIdx && buffIdx + |x| <= TS_SIZE && |x| <= bbfPayloadBytesLeft
      modifies `buffIdx, `bbfPayloadBytesLeft, `bbfCrc8, `output, buff
      ensures Valid() && Fold(old(View()), x).ok && View() == Fold(old(View()), x).v
      ensures output == old(output) + Fold(old(View()), x).packets
      ensures bbfPayloadBytesLeft == old(bbfPayloadBytesLeft) - |x|
      ensures buffIdx == if old(buffIdx) + |x| == TS_SIZE then 0 else old(buffIdx) + |x|
    {
      hide Fold, Crc8;
      ghost var v := View();
      FoldCollect(v, x);
      forall i | 0 <= i < |x| { buff[buffIdx + i] := x[i]; }
      if !hemMode {
        bbfCrc8 := ExtendCrc8(bbfCrc8, x);
      }
      bbfPayloadBytesLeft := bbfPayloadBytesLeft - |x|;
      buffIdx := buffIdx + |x|;
      assert buff[..buffIdx] == v.got + x;
      if buffIdx == TS_SIZE {
        output := output + [buff[..TS_SIZE]];
        buffIdx := 0;
      }
    }

    /** The sync byte of a new packet: supplied, or put in the place of the checksum sent there. */
    method BeginPacket(b: Byte) returns (badCrc: bool, taken: nat)
      requires Valid() && tsSynced && buffIdx == 0
      modifies `buffIdx, `bbfCrc8, `numCrcErrors, `bbfPayloadBytesLeft, buff
      ensures Valid()
      ensures hemMode ==> !badCrc && taken == 0 && View() == old(View())
      ensures !hemMode ==> badCrc == !Fold(old(View()), [b]).ok
      ensures !hemMode && !badCrc ==> taken == 1 && Fold(old(View()), [b]) == Out(View(), [], true)
      ensures bbfPayloadBytesLeft == old(bbfPayloadBytesLeft) - taken && (badCrc ==> taken == 0) && (!badCrc ==> buffIdx == 1)
    {
      hide Fold;
      badCrc, taken := false, 0;
      if hemMode {
        buff[0] := SYNC;
        buffIdx := buffIdx + 1;
      } else {
        FoldSyncByte(View(), b);
        badCrc := bbfCrc8 != b && bbfCrc8 >= 0;
        if badCrc {
          numCrcErrors := numCrcErrors + 1;
          return;
        }
        bbfCrc8 := 0;
        buff[0] := SYNC;
        buffIdx := buffIdx + 1;
        taken := 1;
        bbfPayloadBytesLeft := bbfPayloadBytesLeft - 1;
      }
      assert buff[..1] == [SYNC];
    }

    /**
     * Data up to the end of the current packet or of the data field; behind the latter everything is
     * padding and is used up as well. `got` is what has been passed on.
     */
    method TakeData(rest: seq<Byte>) returns (used: nat, ghost got: seq<seq<Byte>>)
      requires Valid() && tsSynced && 1 <= buffIdx < upl == TS_SIZE && rest != []
      requires bbfPayloadBytesLeft >= 0 && (!hemMode ==> |rest| <= bbfPayloadBytesLeft)
      modifies `buffIdx, `bbfPayloadBytesLeft, `bbfCrc8, `output, buff
      ensures Valid() && 0 < used <= |rest| && 0 <= bbfPayloadBytesLeft
      ensures !hemMode ==> |rest| - used <= bbfPayloadBytesLeft
      ensures output == old(output) + got
      ensures Owes(old(View()), rest, [], View(), rest[used..], got)
    {
      hide Fold, Owes, Regular, View;
      ghost var v := View();
      var n := Min(upl - buffIdx, |rest|);
      var numBytesToOutput := Min(bbfPayloadBytesLeft, n);
      assert buffIdx + numBytesToOutput < buff.Length;   // neither overrun test of the source can fire
      ghost var x, y := rest[..numBytesToOutput], rest[numBytesToOutput..];
      assert rest == x + y;
      OwesStart(v, rest);
      if numBytesToOutput > 0 {
        CollectBytes(rest[..numBytesToOutput]);
        OwesStep(v, rest, v, x, y, []);
        got := [] + Fold(v, x).packets;
      } else {
        assert y == rest;
        got := [];
      }
      used := n;
      if bbfPayloadBytesLeft == 0 {
        OwesPadding(v, rest, View(), y, got);
        used := |rest|;
        assert rest[used..] == [];
      }
    }

    /**
     * bbf_output_ts_bytes: `p` is a piece of a data field, in high efficiency mode with any padding
     * behind it. Not `ok` stands for the NULL the source returns; otherwise every byte is used up.
     */
    method OutputTsBytes(p: seq<Byte>) returns (ok: bool, used: int)
      requires Valid() && upl == TS_SIZE && p != []
      requires !hemMode ==> |p| <= bbfPayloadBytesLeft
      requires bbfPayloadBytesLeft >= 0
      modifies this, buff
      ensures Valid() && upl == old(upl) && hemMode == old(hemMode) && bbfPayloadBytesLeft >= 0
      ensures ok == Fold(old(View()), p).ok
      ensures ok ==> used == |p| && View() == Fold(old(View()), p).v
      ensures ok ==> output == old(output) + Fold(old(View()), p).packets
    {
      hide Fold, Owes, Regular, View;
      ghost var v0 := View();
      var pos, num := 0, |p|;
      assert p[0..] == p;
      OwesStart(v0, p);
      if !tsSynced {
        var n;
        ok, n := SkipToFirst(p);
        if !ok { return false, 0; }
        if n < 0 { return true, num; }
        pos, num := n, num - n;
      }
      ghost var out: seq<seq<Byte>> := [];
      while num > 0 && buffIdx <= upl
        invariant Valid() && upl == TS_SIZE && hemMode == old(hemMode) && bbfPayloadBytesLeft >= 0
        invariant pos + num == |p| && num >= 0 && (tsSynced || num == 0)
        invariant !hemMode ==> num <= bbfPayloadBytesLeft
        invariant output == old(output) + out
        invariant Owes(v0, p, [], View(), p[pos..], out)
        decreases num
      {
        if buffIdx == 0 {
          ghost var v, x, y := View(), [p[pos]], p[pos + 1..];
          assert p[pos..] == x + y;
          var badCrc, taken := BeginPacket(p[pos]);
          if badCrc {
            OwesFailure(v0, p, v, x, y, out);
            return false, 0;
          }
          num, pos := num - taken, pos + taken;
          if taken == 1 {
            OwesStep(v0, p, v, x, y, out);
            assert out + [] == out;
          }
        }
        if num == 0 { break; }
        ghost var v1 := View();
        var n, got := TakeData(p[pos..]);
        OwesMore(v0, p, v1, p[pos..], out, View(), p[pos..][n..], got);
        out := out + got;
        assert p[pos..][n..] == p[pos + n..];
        pos, num := pos + n, num - n;
      }
      assert p[pos..] == [];
      OwesNothing(v0, p, View(), out);
      ok, used := true, pos;
    }
  }

  lemma OwesStart(v: State, p: seq<Byte>)
    requires Regular(v)
    ensures Owes(v, p, [], v, p, [])
  {
  }

  lemma FoldSyncByte(v: State, b: Byte)
    requires Regular(v) && v.synced && !v.hem && v.got == []
    ensures Fold(v, [b]) == if v.crc >= 0 && v.crc != b then Out(v, [], false)
                            else Out(v.(crc := 0, got := [SYNC], left := v.left - 1), [], true)
  {
    assert [b][1..] == [];
  }

  lemma OwesStep(v0: State, p: seq<Byte>, v: State, x: seq<Byte>, y: seq<Byte>, out: seq<seq<Byte>>)
    requires Regular(v0) && Regular(v) && Owes(v0, p, [], v, x + y, out) && Fold(v, x).ok
    ensures Regular(Fold(v, x).v) && Owes(v0, p, [], Fold(v, x).v, y, out + Fold(v, x).packets)
  {
    hide Fold;
    FoldSplit(v, x, y);
    Associative(out, Fold(v, x).packets, Fold(Fold(v, x).v, y).packets);
  }

  lemma OwesMore(v0: State, p: seq<Byte>, v: State, rest: seq<Byte>, out: seq<seq<Byte>>, w: State, tail: seq<Byte>, got: seq<seq<Byte>>)
    requires Regular(v0) && Regular(v) && Regular(w)
    requires Owes(v0, p, [], v, rest, out) && Owes(v, rest, [], w, tail, got)
    ensures Owes(v0, p, [], w, tail, out + got)
  {
    hide Fold;
    assert [] + Fold(v, rest).packets == Fold(v, rest).packets;
    Associative(out, got, Fold(w, tail).packets);
  }

  lemma OwesFailure(v0: State, p: seq<Byte>, v: State, x: seq<Byte>, y: seq<Byte>, out: seq<seq<Byte>>)
    requires Regular(v0) && Regular(v) && Owes(v0, p, [], v, x + y, out) && !Fold(v, x).ok
    ensures !Fold(v0, p).ok
  {
    hide Fold;
    FoldSplit(v, x, y);
  }

  lemma OwesPadding(v0: State, p: seq<Byte>, v: State, rest: seq<Byte>, out: seq<seq<Byte>>)
    requires Regular(v0) && Regular(v) && Owes(v0, p, [], v, rest, out) && v.synced && (rest != [] ==> v.hem && v.left <= 0)
    ensures Owes(v0, p, [], v, [], out)
  {
    if rest != [] { FoldPadding(v, rest); }
  }

  lemma OwesNothing(v0: State, p: seq<Byte>, v: State, out: seq<seq<Byte>>)
    requires Regular(v0) && Regular(v) && Owes(v0, p, [], v, [], out)
    ensures Fold(v0, p) == Out(v, out, true)
  {
    assert [] + Fold(v0, p).packets == Fold(v0, p).packets && out + [] == out;
  }

  /** Folding `p` from `v0` comes to folding `rest` from `v`, once `out` has been produced. */
  ghost predicate Owes(v0: State, p: seq<Byte>, out0: seq<seq<Byte>>, v: State, rest: seq<Byte>, out: seq<seq<Byte>>)
    requires Regular(v0) && Regular(v)
  {
    var (a, b) := (Fold(v0, p), Fold(v, rest));
    a.ok == b.ok && (a.ok ==> a.v == b.v && out0 + a.packets == out + b.packets)
  }

  lemma Progress(v: State, x: seq<Byte>, y: seq<Byte>)
    requires Regular(v) && Fold(v, x).ok
    ensures Regular(Fold(v, x).v)
    ensures Owes(v, x + y, [], Fold(v, x).v, y, Fold(v, x).packets)
  {
    hide Fold;
    FoldSplit(v, x, y);
  }

  /** With nothing to skip the first byte already belongs to a user packet. */
  lemma FoldFromStart(v: State, x: seq<Byte>)
    requires Regular(v) && !v.synced && v.skip == v.syncd && x != []
    ensures Regular(AtStart(v)) && Fold(v, x) == Fold(AtStart(v), x)
  {
  }

  /** What a header changes: the packet in progress stays. */
  function OnHeader(v: State, hem: bool, header: seq<Byte>): State
    requires |header| == 10
  {
    v.(hem := hem, left := Be16(header[4], header[5]) / 8, syncd := Be16(header[7], header[8]) / 8)
  }
}
