/**
 * The decoder object of neumo-dvb-net.c: the fields of struct dvb_net_priv and the loop of
 * dvb_net_ule. Cell by cell it does what module Ule says.
 */
module UleDecoder {
  import opened Bytes
  import opened Crc
  import opened Ule

  // ---------------------------------------------------------------------------------------------
  // The fields, as values
  // ---------------------------------------------------------------------------------------------

  /** `skb` counts only if there is one; `len` is 0 while no length field has been read. */
  datatype Priv = Priv(hasSkb: bool, skb: seq<Byte>, len: nat, kind: nat, type1: bool, dbit: bool, remain: int)

  predicate PrivOk(p: Priv) {
    && (p.len == 0 || MIN_SNDU_LEN <= p.len < 0x8000) && p.kind < 0x1_0000
    && (p.len == 0 ==> !p.hasSkb && !p.type1 && p.remain == 0)
    && (p.len != 0 && p.hasSkb ==> !p.type1 && 0 < p.remain == p.len - |p.skb|)
    && (p.len != 0 && !p.hasSkb ==>
          p.remain == p.len + (if p.type1 then 1 else 2) && (p.type1 ==> p.kind % 0x100 == 0))
  }

  /** The bytes of the length and the type field. */
  function LengthField(len: nat, dbit: bool): (b: seq<Byte>)
    requires len < 0x8000
    ensures |b| == 2
  {
    [len / 0x100 + (if dbit then 0x80 else 0), len % 0x100]
  }

  function TypeField(kind: nat): (b: seq<Byte>)
    requires kind < 0x1_0000
    ensures |b| == 2
  {
    [kind / 0x100, kind % 0x100]
  }

  /** What has been received of the SNDU in progress. */
  function Got(p: Priv): (b: seq<Byte>)
    requires PrivOk(p)
    ensures Started(b) && (b != [] <==> p.len != 0)
  {
    if p.len == 0 then []
    else LengthField(p.len, p.dbit)
         + if p.hasSkb then TypeField(p.kind) + p.skb else if p.type1 then [p.kind / 0x100] else []
  }

  /** The fields agree with the bytes they stand for. */
  lemma GotStarted(p: Priv)
    requires PrivOk(p)
    ensures Started(Got(p))
    ensures p.len != 0 ==> Length(Got(p)) == p.len && Total(Got(p)) - |Got(p)| == p.remain
  {
  }

  // ---------------------------------------------------------------------------------------------
  // Steps on the values
  // ---------------------------------------------------------------------------------------------

  /** The length field is read. */
  function WithLength(x: seq<Byte>): Priv
    requires |x| >= 2
  {
    Priv(false, [], Length(x), 0, false, x[0] >= 0x80, Length(x) + 2)
  }

  lemma LengthRead(x: seq<Byte>)
    requires |x| >= 2 && Length(x) >= MIN_SNDU_LEN
    ensures PrivOk(WithLength(x)) && Got(WithLength(x)) == x[..2]
  {
  }

  /** The whole type field is there: both bytes of it, or the second one. */
  function WithType(p: Priv, x: seq<Byte>): Priv
    requires PrivOk(p) && p.len != 0 && !p.hasSkb && |x| >= (if p.type1 then 1 else 2)
  {
    p.(hasSkb := true, skb := [], type1 := false, remain := p.len,
       kind := if p.type1 then p.kind + x[0] else Be16(x[0], x[1]))
  }

  lemma TypeRead(p: Priv, x: seq<Byte>)
    requires PrivOk(p) && p.len != 0 && !p.hasSkb && |x| >= (if p.type1 then 1 else 2)
    ensures var n := if p.type1 then 1 else 2;
            PrivOk(WithType(p, x)) && Got(WithType(p, x)) == Got(p) + x[..n]
  {
    var q := WithType(p, x);
    if p.type1 {
      assert p.kind == p.kind / 0x100 * 0x100;
      assert q.kind / 0x100 == p.kind / 0x100 && q.kind % 0x100 == x[0];
    } else {
      assert q.kind / 0x100 == x[0] && q.kind % 0x100 == x[1];
    }
    assert TypeField(q.kind) + [] == TypeField(q.kind);
  }

  /** Only the first byte of the type is left in the cell. */
  lemma HalfTypeRead(p: Priv, b: Byte)
    requires PrivOk(p) && p.len != 0 && !p.hasSkb && !p.type1
    ensures var q := p.(kind := b as int * 0x100, type1 := true, remain := p.remain - 1);
            PrivOk(q) && Got(q) == Got(p) + [b]
  {
    assert b as int * 0x100 / 0x100 == b;
  }

  /** Body bytes, not yet all of them. */
  lemma BodyRead(p: Priv, x: seq<Byte>)
    requires PrivOk(p) && p.hasSkb && |x| < p.remain
    ensures var q := p.(skb := p.skb + x, remain := p.remain - |x|);
            PrivOk(q) && Got(q) == Got(p) + x
  {
    Associative(LengthField(p.len, p.dbit), TypeField(p.kind) + p.skb, x);
    Associative(TypeField(p.kind), p.skb, x);
  }

  /** The CRC of length, type and body against the four bytes behind them. */
  function Verdict(p: Priv, skb: seq<Byte>): seq<Sndu>
    requires |skb| >= CRC_SIZE && p.len < 0x8000 && p.kind < 0x1_0000
  {
    var n := |skb| - CRC_SIZE;
    if Crc32(Crc32(Crc32(0xffff_ffff, LengthField(p.len, p.dbit)), TypeField(p.kind)), skb[..n])
       == Word(skb[n], skb[n + 1], skb[n + 2], skb[n + 3])
    then [Sndu(p.dbit, p.kind, skb[..n])] else []
  }

  lemma VerdictIsGate(p: Priv, x: seq<Byte>)
    requires PrivOk(p) && p.hasSkb && |x| == p.remain
    ensures |Got(p) + x| >= HEADER_SIZE + CRC_SIZE && Gate(Got(p) + x) == Verdict(p, p.skb + x)
  {
    hide Crc32, Word;
    var skb := p.skb + x;
    var b := Got(p) + x;
    var head := LengthField(p.len, p.dbit) + TypeField(p.kind);
    var n := |skb| - CRC_SIZE;
    assert b == head + skb;
    assert b[..HEADER_SIZE + n] == head + skb[..n];
    assert b[HEADER_SIZE..HEADER_SIZE + n] == skb[..n];
    Crc32Split(0xffff_ffff, LengthField(p.len, p.dbit), TypeField(p.kind));
    Crc32Split(0xffff_ffff, head, skb[..n]);
    assert b[0] == LengthField(p.len, p.dbit)[0] && b[2] == p.kind / 0x100 && b[3] == p.kind % 0x100;
  }

  // ---------------------------------------------------------------------------------------------
  // What a cell still holds for the decoder
  // ---------------------------------------------------------------------------------------------

  /** `x` is left of the cell and it is not padding. */
  function Part(got: seq<Byte>, x: seq<Byte>): (r: Out)
    requires Started(got)
    ensures Started(r.got)
  {
    if got == [] then Begin(x) else Take(got, x)
  }

  lemma PartShort(got: seq<Byte>, x: seq<Byte>)
    requires got != [] && Started(got) && |x| < Total(got) - |got|
    ensures Part(got, x) == Out(got + x, [])
  {
  }

  lemma PartWhole(got: seq<Byte>, x: seq<Byte>)
    requires got != [] && Started(got) && |x| >= Total(got) - |got|
    ensures var need := Total(got) - |got|;
            Part(got, x) == Out(Next(x[need..]).got, Gate(got + x[..need]) + Next(x[need..]).delivered)
  {
  }

  /** Bytes that only add to the SNDU in progress. */
  lemma PartMore(got: seq<Byte>, x: seq<Byte>, n: nat)
    requires got != [] && Started(got) && n <= |x| && n < Total(got) - |got|
    ensures Started(got + x[..n]) && Part(got, x) == Part(got + x[..n], x[n..])
  {
    hide Next, Gate;
    var g := got + x[..n];
    assert Total(g) == Total(got);
    var need := Total(got) - |got|;
    if |x| < need {
      MoreTaken(got, x, n, |x|);
      assert x[..|x|] == x && x[n..][..|x| - n] == x[n..];
      PartShort(got, x);
      PartShort(g, x[n..]);
    } else {
      MoreTaken(got, x, n, need);
      PartWhole(got, x);
      PartWhole(g, x[n..]);
    }
  }

  lemma MoreTaken(got: seq<Byte>, x: seq<Byte>, n: nat, need: nat)
    requires n <= need <= |x|
    ensures (got + x[..n]) + x[n..][..need - n] == got + x[..need] && x[n..][need - n..] == x[need..]
  {
  }

  // ---------------------------------------------------------------------------------------------
  // The decoder
  // ---------------------------------------------------------------------------------------------

  class DvbNetUle {
    var needPusi: bool
    var tscc: nat
    var hasSkb: bool
    var uleSkb: seq<Byte>
    var uleSnduLen: nat
    var uleSnduType: nat
    var uleSnduType1: bool
    var uleDbit: int
    var uleSnduRemain: int
    /** SNDUs that have passed the CRC, in order. */
    var delivered: seq<Sndu>

    ghost function Now(): Priv
      reads this
    {
      Priv(hasSkb, uleSkb, uleSnduLen, uleSnduType, uleSnduType1, uleDbit != 0, uleSnduRemain)
    }

    ghost predicate Valid()
      reads this
    {
      PrivOk(Now()) && tscc < 0x10
    }

    /** Without an SNDU in progress the decoder waits for a cell that starts one. */
    ghost predicate AtCell()
      reads this
    {
      Valid() && (needPusi <==> uleSnduLen == 0)
    }

    ghost function View(): State
      requires Valid()
      reads this
    {
      State(Got(Now()), tscc)
    }

    constructor ()
      ensures AtCell() && View() == State([], 0) && delivered == []
    {
      needPusi, tscc, hasSkb, uleSkb, uleSnduLen := true, 0, false, [], 0;
      uleSnduType, uleSnduType1, uleDbit, uleSnduRemain, delivered := 0, false, 0xff, 0, [];
    }

    /** reset_ule */
    method ResetUle()
      requires tscc < 0x10
      modifies `hasSkb, `uleSkb, `uleSnduLen, `uleSnduType, `uleSnduType1, `uleDbit, `uleSnduRemain
      ensures Valid() && uleSnduLen == 0 && !hasSkb && !uleSnduType1
    {
      hasSkb, uleSkb, uleSnduLen, uleSnduType, uleSnduType1 := false, [], 0, 0, false;
      uleSnduRemain, uleDbit := 0, 0xff;
    }

    /**
     * dvb_net_ule_ts_pusi, while the decoder waits: the payload is taken to be `remain` bytes from
     * `from` on. Only a cell that is none makes it end anywhere but at the end of the cell.
     */
    method TsPusi(c: seq<Byte>) returns (skip: bool, from: nat, remain: nat)
      requires |c| == TS_SZ && tscc < 0x10
      modifies `tscc
      ensures tscc < 0x10 && (skip ==> IsCell(c) && Resync(old(tscc), c) == Result(State([], tscc), []))
      ensures !skip ==> Pusi(c) && c[4] <= PAYLOAD_SIZE && from == 5 + c[4] && tscc == c[3] % 0x10
      ensures !skip ==> (IsCell(c) <==> from + remain == TS_SZ)
    {
      StaysInsideExactlyWhen(c);
      skip, from, remain := false, 4, PAYLOAD_SIZE;
      if c[1] / 0x40 % 2 == 1 {
        tscc := c[3] % 0x10;
        if c[4] > PAYLOAD_SIZE {
          return true, from, remain;
        }
        from := 5 + c[4];
        remain := (PAYLOAD_SIZE - (1 + c[4])) % 0x100;
      } else {
        skip := true;
      }
    }

    /** The cell cannot continue what has been received: it is looked at again, for a start. */
    method DropPartial()
      requires Valid()
      modifies `hasSkb, `uleSkb, `uleSnduLen, `uleSnduType, `uleSnduType1, `uleDbit, `uleSnduRemain, `needPusi
      ensures AtCell() && needPusi && View() == State([], tscc)
    {
      ResetUle();
      needPusi := true;
    }

    /** dvb_net_ule_new_ts */
    method NewTs(c: seq<Byte>, from0: nat) returns (again: bool, from: nat)
      requires Valid() && IsCell(c) && CellValid(c) && (needPusi ==> uleSnduLen == 0)
      requires if needPusi then Pusi(c) && c[4] < PAYLOAD_SIZE && from0 == 5 + c[4] && tscc == c[3] % 0x10
               else from0 == 4 && uleSnduLen != 0
      modifies this
      ensures Valid() && delivered == old(delivered)
      ensures again ==> AtCell() && needPusi && !old(needPusi) && OnCell(old(View()), c) == OnCell(View(), c)
      ensures !again ==> !needPusi && tscc == (old(tscc) + 1) % 0x10 && Now() == old(Now()) && 4 <= from <= TS_SZ
      ensures !again && !old(needPusi) ==> from <= 5 && c[3] % 0x10 == old(tscc)
      ensures !again && !old(needPusi) ==> OnCell(old(View()), c) == OfPart(Got(Now()), c[from..], tscc)
      ensures !again && old(needPusi) ==> from == from0
    {
      hide Take, Begin, Got;
      GotStarted(Now());
      again, from := false, from0;
      if c[3] % 0x10 == tscc {
        tscc := (tscc + 1) % 0x10;
      } else {
        DropPartial();
        return true, from;
      }
      if c[1] / 0x40 % 2 == 1 {
        if !needPusi {
          if c[4] >= PAYLOAD_SIZE - 1 || c[4] != uleSnduRemain {
            DropPartial();
            return true, from;
          }
          from := from + 1;
        } else {
          needPusi := false;
        }
        assert uleSnduRemain <= 183;   // so the flush that follows in the source never happens
      }
    }

    /** The first half of the loop in dvb_net_ule, for a new cell. */
    method NewCell(c: seq<Byte>) returns (next: bool, again: bool, from: nat)
      requires AtCell() && IsCell(c)
      modifies this
      ensures Valid() && delivered == old(delivered)
      ensures next ==> AtCell() && OnCell(old(View()), c) == Result(View(), [])
      ensures again ==> AtCell() && needPusi && !old(needPusi) && OnCell(old(View()), c) == OnCell(View(), c)
      ensures !next && !again ==> !needPusi && 4 <= from <= TS_SZ && (uleSnduLen != 0 ==> from <= 5)
      ensures !next && !again ==> OnCell(old(View()), c) == OfPart(Got(Now()), c[from..], tscc)
    {
      hide Take, Begin, Got;
      GotStarted(Now());
      next, again, from := false, false, 4;
      if c[0] != TS_SYNC || c[1] >= 0x80 || c[3] >= 0x40 {
        DropPartial();
        next := true;
        return;
      }
      if needPusi {
        var remain;
        next, from, remain := TsPusi(c);
        if next { return; }
      }
      again, from := NewTs(c, from);
    }

    /** The length field, which a cell always holds whole; `n` bytes of `x` are used. */
    method ReadLength(x: seq<Byte>) returns (next: bool, n: nat)
      requires Valid() && uleSnduLen == 0 && !needPusi
      modifies `uleSnduLen, `uleDbit, `needPusi, `uleSnduRemain
      ensures Valid() && n <= |x|
      ensures next ==> AtCell() && uleSnduLen == 0 && Part([], x) == Out([], [])
      ensures !next ==> !needPusi && uleSnduLen != 0 && !hasSkb && Part([], x) == Part(Got(Now()), x[n..])
    {
      hide Take, Got;
      next, n := true, 0;
      if |x| < 2 {
        uleSnduLen := 0;
        needPusi := true;
        return;
      }
      uleSnduLen := Be16(x[0], x[1]);
      if uleSnduLen >= 0x8000 {
        uleSnduLen := uleSnduLen - 0x8000;
        uleDbit := 1;
      } else {
        uleDbit := 0;
      }
      if uleSnduLen < MIN_SNDU_LEN {
        uleSnduLen := 0;
        needPusi := true;
        return;
      }
      next, n := false, 2;
      uleSnduRemain := uleSnduLen + 2;
      LengthRead(x);
      SameBytes(Now(), WithLength(x));
    }

    /** dvb_net_ule_new_payload: the header of an SNDU, as far as the cell has it. */
    method NewPayload(x: seq<Byte>) returns (next: bool, n: nat)
      requires Valid() && !hasSkb && !needPusi && (uleSnduLen != 0 ==> |x| >= 2)
      modifies this
      ensures Valid() && n <= |x| && delivered == old(delivered) && tscc == old(tscc)
      ensures next ==> AtCell() && Part(old(Got(Now())), x) == Out(Got(Now()), [])
      ensures !next ==> !needPusi && hasSkb && uleSnduLen != 0 && Part(old(Got(Now())), x) == Part(Got(Now()), x[n..])
    {
      hide Take, Begin, Got, Part;
      next, n := false, 0;
      ghost var got0 := Got(Now());
      assert x[0..] == x;
      if uleSnduLen == 0 {
        next, n := ReadLength(x);
        if next { return; }
      }
      ghost var p, y := Now(), x[n..];
      GotStarted(p);
      if |x| - n == 1 {
        assert !uleSnduType1;
        HalfTypeRead(p, y[0]);
        uleSnduRemain := uleSnduRemain - 1;
        uleSnduType := x[n] as int * 0x100;
        uleSnduType1 := true;
        PartShort(Got(p), y);
        assert y == [y[0]];
        return true, n;
      } else if |x| - n == 0 {
        PartShort(Got(p), y);
        assert Got(p) + y == Got(p);
        return true, n;
      }
      TypeRead(p, y);
      PartMore(Got(p), y, if p.type1 then 1 else 2);
      if uleSnduType1 {
        uleSnduType1 := false;
        uleSnduType := uleSnduType + x[n];
        n := n + 1;
      } else {
        uleSnduType := Be16(x[n], x[n + 1]);
        n := n + 2;
      }
      hasSkb, uleSkb := true, [];
      uleSnduRemain := uleSnduLen;
      assert Now() == WithType(p, y);
    }

    /** The CRC over length, type and body, in three pieces as iov_crc32 takes them. */
    method CheckCrc()
      requires hasSkb && |uleSkb| >= CRC_SIZE && uleSnduLen < 0x8000 && uleSnduType < 0x1_0000
      modifies `delivered
      ensures delivered == old(delivered) + Verdict(Now(), uleSkb)
    {
      hide Crc32, Word;
      var n := |uleSkb| - CRC_SIZE;
      var ulen := LengthField(uleSnduLen, uleDbit != 0);
      var utype := TypeField(uleSnduType);
      var uleCrc := ExtendCrc32(0xffff_ffff, ulen);
      uleCrc := ExtendCrc32(uleCrc, utype);
      uleCrc := ExtendCrc32(uleCrc, uleSkb[..n]);
      var expectedCrc := Word(uleSkb[n], uleSkb[n + 1], uleSkb[n + 2], uleSkb[n + 3]);
      if uleCrc == expectedCrc {
        delivered := delivered + [Sndu(uleDbit != 0, uleSnduType, uleSkb[..n])];
      } else {
        assert delivered + [] == delivered;
      }
    }

    /** Body bytes of `x` into the buffer; a complete SNDU is checked, and gone. */
    method CopyBody(x: seq<Byte>) returns (n: nat, ghost sn: seq<Sndu>)
      requires Valid() && hasSkb && uleSnduLen != 0 && !needPusi
      modifies `uleSkb, `uleSnduRemain, `delivered, `hasSkb, `uleSnduLen, `uleSnduType, `uleSnduType1, `uleDbit
      ensures Valid() && n <= |x| && (hasSkb <==> uleSnduLen != 0) && (if hasSkb then n == |x| else 0 < n)
      ensures delivered == old(delivered) + sn
      ensures hasSkb ==> Part(old(Got(Now())), x) == Out(Got(Now()), []) && sn == []
      ensures !hasSkb ==> Part(old(Got(Now())), x) == Out(Next(x[n..]).got, sn + Next(x[n..]).delivered)
    {
      hide Take, Got, Next, Gate, Verdict;
      ghost var p := Now();
      GotStarted(p);
      n := Min(uleSnduRemain, |x|);
      if uleSnduRemain > |x| {
        BodyRead(p, x);
        PartShort(Got(p), x);
      } else {
        VerdictIsGate(p, x[..n]);
        PartWhole(Got(p), x);
      }
      uleSkb := uleSkb + x[..n];
      uleSnduRemain := uleSnduRemain - n;
      if uleSnduRemain <= 0 {
        assert |uleSkb| >= CRC_SIZE;
        sn := Gate(Got(p) + x[..n]);
        SameVerdict(p, Now(), uleSkb);
        CheckCrc();
        ResetUle();
      } else {
        sn := [];
        assert x[..n] == x;
      }
    }

    /** The second half of the loop in dvb_net_ule, with `x` left of the cell. */
    method RestOfCell(x: seq<Byte>) returns (next: bool, n: nat, ghost sn: seq<Sndu>)
      requires Valid() && !needPusi && (hasSkb ==> uleSnduLen != 0) && (uleSnduLen != 0 ==> |x| >= 2)
      modifies this
      ensures Valid() && n <= |x| && tscc == old(tscc) && delivered == old(delivered) + sn
      ensures next ==> AtCell() && Part(old(Got(Now())), x) == Out(Got(Now()), sn)
      ensures !next ==> !needPusi && uleSnduLen == 0 && !hasSkb && 0 < n && !Padding(x[n..])
      ensures !next ==> var r := Part([], x[n..]); Part(old(Got(Now())), x) == Out(r.got, sn + r.delivered)
    {
      hide Take, Begin, Got, Next, Part;
      next, n, sn := false, 0, [];
      assert x[0..] == x;
      if !hasSkb {
        next, n := NewPayload(x);
        if next { return; }
      }
      var k;
      k, sn := CopyBody(x[n..]);
      assert x[n..][k..] == x[n + k..];
      n := n + k;
      NextIs(x[n..]);
      if |x| - n >= 2 && !(x[n] == 0xff && x[n + 1] == 0xff) {
        uleSnduType1, uleSnduLen := false, 0;
      } else {
        next := true;
        if !hasSkb {
          needPusi, uleSnduType1, uleSnduLen := true, false, 0;
        }
      }
    }

    /** Between two turns of the loop: at a cell, or behind an SNDU with more in the cell. */
    ghost predicate Turning(newTs: bool, tsRemain: nat)
      reads this
    {
      && Valid() && (newTs ==> AtCell())
      && tsRemain <= PAYLOAD_SIZE
      && (!newTs ==> !needPusi && uleSnduLen == 0 && !hasSkb && 2 <= tsRemain)
    }

    ghost function Rank(newTs: bool): nat
      reads this
    {
      if !newTs then 0 else if needPusi then 1 else 2
    }

    /** One turn of the loop in dvb_net_ule, for the cell `c`. */
    method Turn(c: seq<Byte>, newTs0: bool, tsRemain0: nat) returns (next: bool, newTs: bool, tsRemain: nat, ghost sn: seq<Sndu>)
      requires IsCell(c) && Turning(newTs0, tsRemain0)
      modifies this
      ensures Turning(newTs, tsRemain) && delivered == old(delivered) + sn
      ensures next ==> newTs && Todo(old(View()), c, newTs0, tsRemain0) == Result(View(), sn)
      ensures !next ==> Todo(old(View()), c, newTs0, tsRemain0) == Behind(sn, Todo(View(), c, newTs, tsRemain))
      ensures !next ==> old(Rank(newTs0)) > Rank(newTs) || (!newTs0 && !newTs && tsRemain < tsRemain0)
    {
      hide OnCell, Got, Part, Padding;
      next, newTs, tsRemain, sn := false, newTs0, tsRemain0, [];
      if newTs {
        var again, from;
        next, again, from := NewCell(c);
        if next { return; }
        if again {
          NothingYet(OnCell(View(), c));
          return;
        }
        tsRemain := TS_SZ - from;
      }
      var x := c[TS_SZ - tsRemain..];
      var n;
      next, n, sn := RestOfCell(x);
      newTs := next;
      if !next {
        PaddingShort(x[n..]);
        tsRemain := tsRemain - n;
        assert x[n..] == c[TS_SZ - tsRemain..];
      }
    }

    /** dvb_net_ule: all cells of a buffer. */
    method Ule(buf: seq<Byte>)
      requires AtCell() && |buf| % TS_SZ == 0 && AllCells(Cells(buf))
      modifies this
      ensures AtCell() && View() == OnCells(old(View()), Cells(buf)).state
      ensures delivered == old(delivered) + OnCells(old(View()), Cells(buf)).delivered
    {
      hide OnCell, Got, Part, OnCells, Todo;
      ghost var all, so := OnCells(View(), Cells(buf)), [];
      var ts, newTs, tsRemain: nat := 0, true, 0;
      assert buf[0..] == buf;
      NothingYet(all);
      while ts < |buf|
        invariant ts % TS_SZ == 0 && ts <= |buf| && AllCells(Cells(buf[ts..]))
        invariant Turning(newTs, tsRemain) && (!newTs ==> ts < |buf| && IsCell(buf[ts..][..TS_SZ]))
        invariant delivered == old(delivered) + so
        invariant newTs ==> all == Behind(so, OnCells(View(), Cells(buf[ts..])))
        invariant !newTs ==> AllCells(Cells(buf[ts..][TS_SZ..]))
        invariant !newTs ==> all == Behind(so, Then(Todo(View(), buf[ts..][..TS_SZ], newTs, tsRemain), Cells(buf[ts..][TS_SZ..])))
        decreases |buf| - ts, Rank(newTs), tsRemain
      {
        var c := buf[ts..][..TS_SZ];
        FirstCell(buf[ts..]);
        assert buf[ts..][TS_SZ..] == buf[ts + TS_SZ..];
        ghost var later := Cells(buf[ts..][TS_SZ..]);
        ghost var s, newTs0, tsRemain0 := View(), newTs, tsRemain;
        TodoFirst(s, c, later, tsRemain0);
        var next, new1, remain1, sn := Turn(c, newTs, tsRemain);
        newTs, tsRemain := new1, remain1;
        if next {
          ThenMore(so, sn, Result(View(), []), later);
          ThenNothing(View(), later);
          ts := ts + TS_SZ;
        } else {
          ThenMore(so, sn, Todo(View(), c, newTs, tsRemain), later);
          TodoFirst(View(), c, later, tsRemain);
        }
        so := so + sn;
      }
      assert buf[ts..] == [];
      NoCells(View());
      assert so + [] == so;
    }
  }

  /** What the rest of a cell does: of a new one, or of one of which `tsRemain` bytes are left. */
  function Todo(s: State, c: seq<Byte>, newTs: bool, tsRemain: nat): (r: Result)
    requires Started(s.got) && IsCell(c) && tsRemain <= PAYLOAD_SIZE
    ensures Started(r.state.got)
  {
    OnCellStarted(s, c);
    if newTs then OnCell(s, c) else OfPart(s.got, c[TS_SZ - tsRemain..], s.tscc)
  }

  lemma TodoFirst(s: State, c: seq<Byte>, cs: seq<seq<Byte>>, tsRemain: nat)
    requires Started(s.got) && IsCell(c) && AllCells(cs) && tsRemain <= PAYLOAD_SIZE
    ensures AllCells([c] + cs) && OnCells(s, [c] + cs) == Then(Todo(s, c, true, tsRemain), cs)
  {
    OnCellsFirst(s, c, cs);
  }

  predicate AllCells(cs: seq<seq<Byte>>) {
    forall i :: 0 <= i < |cs| ==> IsCell(cs[i])
  }

  /** A buffer of whole cells. */
  function Cells(buf: seq<Byte>): (cs: seq<seq<Byte>>)
    requires |buf| % TS_SZ == 0
  {
    if buf == [] then [] else [buf[..TS_SZ]] + Cells(buf[TS_SZ..])
  }

  lemma FirstCell(buf: seq<Byte>)
    requires buf != [] && |buf| % TS_SZ == 0 && AllCells(Cells(buf))
    ensures |buf| >= TS_SZ && IsCell(buf[..TS_SZ]) && AllCells(Cells(buf[TS_SZ..]))
    ensures Cells(buf) == [buf[..TS_SZ]] + Cells(buf[TS_SZ..])
  {
    CellsStep(buf);
    hide Cells, IsCell;
    AllCellsRest(Cells(buf), buf[..TS_SZ], Cells(buf[TS_SZ..]));
  }

  lemma CellsStep(buf: seq<Byte>)
    requires buf != [] && |buf| % TS_SZ == 0
    ensures |buf| >= TS_SZ && |buf[TS_SZ..]| % TS_SZ == 0
    ensures Cells(buf) == [buf[..TS_SZ]] + Cells(buf[TS_SZ..])
  {
  }

  lemma AllCellsRest(cs: seq<seq<Byte>>, c: seq<Byte>, rest: seq<seq<Byte>>)
    requires AllCells(cs) && cs == [c] + rest
    ensures IsCell(c) && AllCells(rest)
  {
    hide IsCell;
    assert cs[0] == c;
    forall i | 0 <= i < |rest| ensures IsCell(rest[i]) { assert rest[i] == cs[i + 1]; }
  }

  /** `so` has been delivered before. */
  function Behind(so: seq<Sndu>, r: Result): Result {
    Result(r.state, so + r.delivered)
  }

  /** More cells after `r`. */
  function Then(r: Result, cs: seq<seq<Byte>>): Result
    requires Started(r.state.got) && AllCells(cs)
  {
    Behind(r.delivered, OnCells(r.state, cs))
  }

  lemma OnCellsFirst(s: State, c: seq<Byte>, cs: seq<seq<Byte>>)
    requires Started(s.got) && IsCell(c) && AllCells(cs)
    ensures AllCells([c] + cs) && Started(OnCell(s, c).state.got)
    ensures OnCells(s, [c] + cs) == Then(OnCell(s, c), cs)
  {
    hide OnCell;
    OnCellStarted(s, c);
    assert ([c] + cs)[1..] == cs;
  }

  lemma ThenNothing(s: State, cs: seq<seq<Byte>>)
    requires Started(s.got) && AllCells(cs)
    ensures Then(Result(s, []), cs) == OnCells(s, cs)
  {
    assert [] + OnCells(s, cs).delivered == OnCells(s, cs).delivered;
  }

  lemma ThenMore(so: seq<Sndu>, sn: seq<Sndu>, r: Result, cs: seq<seq<Byte>>)
    requires Started(r.state.got) && AllCells(cs)
    ensures Behind(so, Then(Result(r.state, sn + r.delivered), cs)) == Behind(so + sn, Then(r, cs))
    ensures sn + [] == sn
  {
    var d := OnCells(r.state, cs).delivered;
    Associative(sn, r.delivered, d);
    Associative(so, sn, r.delivered + d);
  }

  lemma NothingYet(r: Result)
    ensures Behind([], r) == r
  {
    assert [] + r.delivered == r.delivered;
  }

  lemma PaddingShort(x: seq<Byte>)
    requires !Padding(x)
    ensures |x| >= 2
  {
  }

  lemma NoCells(s: State)
    requires Started(s.got)
    ensures OnCells(s, Cells([])) == Result(s, [])
  {
  }

  lemma SameVerdict(p: Priv, q: Priv, skb: seq<Byte>)
    requires |skb| >= CRC_SIZE && p.len == q.len < 0x8000 && p.kind == q.kind < 0x1_0000 && p.dbit == q.dbit
    ensures Verdict(p, skb) == Verdict(q, skb)
  {
  }

  lemma NextIs(x: seq<Byte>)
    ensures Next(x) == if Padding(x) then Out([], []) else Part([], x)
  {
  }

  lemma SameBytes(p: Priv, q: Priv)
    requires PrivOk(q) && !q.hasSkb && q.len != 0 && !q.type1 && p == q.(skb := p.skb, kind := p.kind) && p.kind < 0x1_0000
    ensures PrivOk(p) && Got(p) == Got(q)
  {
  }

  /** A cell of which `x` is still to be read, when the next counter is `tscc`. */
  function OfPart(got: seq<Byte>, x: seq<Byte>, tscc: int): (r: Result)
    requires Started(got)
    ensures Started(r.state.got)
  {
    Result(State(Part(got, x).got, tscc), Part(got, x).delivered)
  }
}
