/**
 * Section filters, from the sixteen bytes a user sets in neumo-dmxdev.c to the match loop of
 * neumo-dvb-demux.c: the bytes skip the section length, and masked bits are wanted equal or different.
 */
module SectionFilter {

  const DMX_FILTER_SIZE := 16
  const MASK_MAX := 18

  /** Filter, mask and mode bytes as the user sets them; a mode bit asks for a difference. */
  datatype DmxFilter = DmxFilter(filter: seq<bv8>, mask: seq<bv8>, mode: seq<bv8>)

  predicate IsFilter(f: DmxFilter) {
    |f.filter| == DMX_FILTER_SIZE && |f.mask| == DMX_FILTER_SIZE && |f.mode| == DMX_FILTER_SIZE
  }

  /** The byte of a section that user byte `u` is compared with. */
  function Position(u: nat): nat {
    if u == 0 then 0 else u + 2
  }

  // ---------------------------------------------------------------------------------------------
  // What a filter means
  // ---------------------------------------------------------------------------------------------

  function Power(k: nat): bv8 {
    if k == 0 then 1 else if k == 1 then 2 else if k == 2 then 4 else if k == 3 then 8
    else if k == 4 then 0x10 else if k == 5 then 0x20 else if k == 6 then 0x40 else 0x80
  }

  predicate Test(x: bv8, p: bv8) {
    And(x, p) != 0
  }

  predicate Bit(x: bv8, k: nat) {
    Test(x, Power(k))
  }

  /** The section has, at bit `k` of user byte `u`, what the filter has. */
  predicate SameBit(f: DmxFilter, sec: seq<bv8>, u: nat, k: nat)
    requires IsFilter(f) && |sec| >= MASK_MAX && u < DMX_FILTER_SIZE && k < 8
  {
    Bit(f.filter[u], k) == Bit(sec[if u == 0 then 0 else u + 2], k)
  }

  predicate Positive(f: DmxFilter, u: nat, k: nat)
    requires IsFilter(f) && u < DMX_FILTER_SIZE && k < 8
  {
    Bit(f.mask[u], k) && !Bit(f.mode[u], k)
  }

  predicate Negative(f: DmxFilter, u: nat, k: nat)
    requires IsFilter(f) && u < DMX_FILTER_SIZE && k < 8
  {
    Bit(f.mask[u], k) && Bit(f.mode[u], k)
  }

  /** Every positive bit is equal, and of the negative bits, if there are any, at least one differs. */
  ghost predicate Matches(f: DmxFilter, sec: seq<bv8>)
    requires IsFilter(f) && |sec| >= MASK_MAX
  {
    && (forall u, k :: 0 <= u < DMX_FILTER_SIZE && 0 <= k < 8 && Positive(f, u, k) ==> SameBit(f, sec, u, k))
    && ((exists u, k :: 0 <= u < DMX_FILTER_SIZE && 0 <= k < 8 && Negative(f, u, k)) ==>
          exists u, k :: 0 <= u < DMX_FILTER_SIZE && 0 <= k < 8 && Negative(f, u, k) && !SameBit(f, sec, u, k))
  }

  // ---------------------------------------------------------------------------------------------
  // What the code computes
  // ---------------------------------------------------------------------------------------------

  function And(a: bv8, b: bv8): bv8 { a & b }

  function AndNot(a: bv8, b: bv8): bv8 { a & !b }

  function Or(a: bv8, b: bv8): bv8 { a | b }

  function Xor(a: bv8, b: bv8): bv8 { a ^ b }

  /** Masked bits that differ, at byte `i`, among those with a mode bit or among the others. */
  function Differing(masked: bv8, value: bv8, b: bv8): bv8 {
    And(masked, Xor(value, b))
  }

  /** The 18 bytes each of a section filter in the demux. */
  datatype SecFilter = SecFilter(value: seq<bv8>, mask: seq<bv8>, mode: seq<bv8>)

  predicate IsSecFilter(s: SecFilter) {
    |s.value| == MASK_MAX && |s.mask| == MASK_MAX && |s.mode| == MASK_MAX
  }

  /** The filter is in place: inverted modes, and no byte of it at the section length. */
  predicate Remapped(f: DmxFilter, s: SecFilter)
    requires IsFilter(f) && IsSecFilter(s)
  {
    && s.mask[1] == 0 && s.mask[2] == 0
    && forall u :: 0 <= u < DMX_FILTER_SIZE ==>
         s.value[Position(u)] == f.filter[u] && s.mask[Position(u)] == f.mask[u] && s.mode[Position(u)] == !f.mode[u]
  }

  predicate Accepts(s: SecFilter, sec: seq<bv8>)
    requires IsSecFilter(s) && |sec| >= MASK_MAX
  {
    && (forall i :: 0 <= i < MASK_MAX ==> Differing(And(s.mask[i], s.mode[i]), s.value[i], sec[i]) == 0)
    && ((forall i :: 0 <= i < MASK_MAX ==> AndNot(s.mask[i], s.mode[i]) == 0)
        || exists i :: 0 <= i < MASK_MAX && Differing(AndNot(s.mask[i], s.mode[i]), s.value[i], sec[i]) != 0)
  }

  /** invert_mode */
  method InvertMode(mode: array<bv8>)
    requires mode.Length == DMX_FILTER_SIZE
    modifies mode
    ensures forall i :: 0 <= i < DMX_FILTER_SIZE ==> mode[i] == !old(mode[i])
  {
    for i := 0 to DMX_FILTER_SIZE
      invariant forall j :: 0 <= j < i ==> mode[j] == !old(mode[j])
      invariant forall j :: i <= j < DMX_FILTER_SIZE ==> mode[j] == old(mode[j])
    {
      InvertByte(mode[i]);
      mode[i] := mode[i] ^ 0xff;
    }
  }

  lemma InvertByte(x: bv8)
    ensures x ^ 0xff == !x
  {
  }

  /** A filter the demux compares sections with. */
  class DemuxSectionFilter {
    const filterValue: array<bv8>
    const filterMask: array<bv8>
    const filterMode: array<bv8>
    const maskandmode: array<bv8>
    const maskandnotmode: array<bv8>
    var doneq: bool

    ghost predicate Arrays() {
      && filterValue.Length == MASK_MAX && filterMask.Length == MASK_MAX && filterMode.Length == MASK_MAX
      && maskandmode.Length == MASK_MAX && maskandnotmode.Length == MASK_MAX
      && maskandmode !in {filterValue, filterMask, filterMode} && maskandnotmode !in {filterValue, filterMask, filterMode}
      && maskandmode != maskandnotmode && filterMode != filterMask && filterMask != filterValue && filterValue != filterMode
    }

    ghost function Sec(): (s: SecFilter)
      requires Arrays()
      reads filterValue, filterMask, filterMode
      ensures IsSecFilter(s)
    {
      SecFilter(filterValue[..], filterMask[..], filterMode[..])
    }

    ghost predicate Prepared()
      requires Arrays()
      reads this, filterMask, filterMode, maskandmode, maskandnotmode
    {
      && (forall i :: 0 <= i < MASK_MAX ==> maskandmode[i] == And(filterMask[i], filterMode[i]))
      && (forall i :: 0 <= i < MASK_MAX ==> maskandnotmode[i] == AndNot(filterMask[i], filterMode[i]))
      && (doneq <==> exists i :: 0 <= i < MASK_MAX && AndNot(filterMask[i], filterMode[i]) != 0)
    }

    constructor ()
      ensures Arrays() && fresh(filterValue) && fresh(filterMask) && fresh(filterMode)
      ensures fresh(maskandmode) && fresh(maskandnotmode)
    {
      filterValue, filterMask, filterMode := new bv8[MASK_MAX], new bv8[MASK_MAX], new bv8[MASK_MAX];
      maskandmode, maskandnotmode, doneq := new bv8[MASK_MAX], new bv8[MASK_MAX], false;
    }

    /** The byte mapping in dvb_dmxdev_filter_start; `mode` has been inverted before. */
    method SetFilter(filter: seq<bv8>, mask: seq<bv8>, mode: seq<bv8>)
      requires Arrays() && |filter| == DMX_FILTER_SIZE && |mask| == DMX_FILTER_SIZE && |mode| == DMX_FILTER_SIZE
      modifies filterValue, filterMask, filterMode
      ensures filterMask[1] == 0 && filterMask[2] == 0
      ensures filterValue[0] == filter[0] && filterMask[0] == mask[0] && filterMode[0] == mode[0]
      ensures forall u :: 1 <= u <= 15 ==>
                filterValue[u + 2] == filter[u] && filterMask[u + 2] == mask[u] && filterMode[u + 2] == mode[u]
    {
      forall i | 0 <= i < DMX_FILTER_SIZE - 1 { filterValue[3 + i] := filter[1 + i]; }
      forall i | 0 <= i < DMX_FILTER_SIZE - 1 { filterMask[3 + i] := mask[1 + i]; }
      forall i | 0 <= i < DMX_FILTER_SIZE - 1 { filterMode[3 + i] := mode[1 + i]; }
      filterValue[0] := filter[0];
      filterMask[0] := mask[0];
      filterMode[0] := mode[0];
      filterMask[1] := 0;
      filterMask[2] := 0;
    }

    /** prepare_secfilters, for one filter. */
    method Prepare()
      requires Arrays()
      modifies `doneq, maskandmode, maskandnotmode
      ensures Prepared()
    {
      hide And, AndNot, Or;
      var any: bv8 := 0;
      for i := 0 to MASK_MAX
        invariant forall j :: 0 <= j < i ==> maskandmode[j] == And(filterMask[j], filterMode[j])
        invariant forall j :: 0 <= j < i ==> maskandnotmode[j] == AndNot(filterMask[j], filterMode[j])
        invariant any != 0 <==> exists j :: 0 <= j < i && AndNot(filterMask[j], filterMode[j]) != 0
      {
        var mode, mask := filterMode[i], filterMask[i];
        maskandmode[i] := And(mask, mode);
        maskandnotmode[i] := AndNot(mask, mode);
        OrIsZero(any, AndNot(mask, mode));
        any := Or(any, maskandnotmode[i]);
      }
      doneq := any != 0;
    }

    /** The loop of neumo_dvb_dmx_swfilter_sectionfilter, over the first bytes of the section buffer. */
    method Match(secbuf: seq<bv8>) returns (accepted: bool)
      requires Arrays() && Prepared() && |secbuf| >= MASK_MAX
      ensures accepted == Accepts(Sec(), secbuf)
    {
      hide And, AndNot, Or, Xor;
      var neq: bv8 := 0;
      for i := 0 to MASK_MAX
        invariant forall j :: 0 <= j < i ==> Differing(maskandmode[j], filterValue[j], secbuf[j]) == 0
        invariant neq != 0 <==> exists j :: 0 <= j < i && Differing(maskandnotmode[j], filterValue[j], secbuf[j]) != 0
      {
        var xor := Xor(filterValue[i], secbuf[i]);
        if And(maskandmode[i], xor) != 0 {
          assert Differing(maskandmode[i], filterValue[i], secbuf[i]) != 0;
          return false;
        }
        OrIsZero(neq, And(maskandnotmode[i], xor));
        neq := Or(neq, And(maskandnotmode[i], xor));
      }
      accepted := !(doneq && neq == 0);
    }
  }

  lemma OrIsZero(a: bv8, b: bv8)
    ensures Or(a, b) == 0 <==> a == 0 && b == 0
  {
  }

  // ---------------------------------------------------------------------------------------------
  // The two agree
  // ---------------------------------------------------------------------------------------------

  /** Bit by bit. */
  lemma BitsOf(x: bv8, y: bv8, k: nat)
    requires k < 8
    ensures Bit(And(x, y), k) <==> Bit(x, k) && Bit(y, k)
    ensures Bit(AndNot(x, y), k) <==> Bit(x, k) && !Bit(y, k)
    ensures Bit(Xor(x, y), k) <==> Bit(x, k) != Bit(y, k)
    ensures Bit(!x, k) <==> !Bit(x, k)
  {
    hide Test, And, AndNot, Xor;
    OneBit(x, y, Power(k));
  }

  /** One of the eight bits on its own. */
  predicate Single(p: bv8) {
    p == 1 || p == 2 || p == 4 || p == 8 || p == 0x10 || p == 0x20 || p == 0x40 || p == 0x80
  }

  /** Either all of a single bit is in a byte, or none of it. */
  lemma AllOrNothing(x: bv8, p: bv8)
    requires Single(p)
    ensures And(x, p) == p || And(x, p) == 0
  {
  }

  lemma MaskedAnd(x: bv8, y: bv8, p: bv8)
    ensures And(And(x, y), p) == And(And(x, p), And(y, p))
  {
  }

  lemma MaskedAndNot(x: bv8, y: bv8, p: bv8)
    ensures And(AndNot(x, y), p) == AndNot(And(x, p), And(y, p))
  {
  }

  lemma MaskedXor(x: bv8, y: bv8, p: bv8)
    ensures And(Xor(x, y), p) == Xor(And(x, p), And(y, p))
  {
  }

  lemma MaskedNot(x: bv8, p: bv8)
    ensures And(!x, p) == Xor(p, And(x, p))
  {
  }

  lemma WithItself(p: bv8)
    ensures And(p, p) == p && And(p, 0) == 0 && And(0, p) == 0 && And(0, 0) == 0
    ensures AndNot(p, p) == 0 && AndNot(p, 0) == p && AndNot(0, p) == 0 && AndNot(0, 0) == 0
    ensures Xor(p, p) == 0 && Xor(p, 0) == p && Xor(0, p) == p && Xor(0, 0) == 0
  {
  }

  lemma OneBit(x: bv8, y: bv8, p: bv8)
    requires Single(p)
    ensures Test(And(x, y), p) <==> Test(x, p) && Test(y, p)
    ensures Test(AndNot(x, y), p) <==> Test(x, p) && !Test(y, p)
    ensures Test(Xor(x, y), p) <==> Test(x, p) != Test(y, p)
    ensures Test(!x, p) <==> !Test(x, p)
  {
    hide And, AndNot, Xor;
    AllOrNothing(x, p);
    AllOrNothing(y, p);
    MaskedAnd(x, y, p);
    MaskedAndNot(x, y, p);
    MaskedXor(x, y, p);
    MaskedNot(x, p);
    WithItself(p);
  }

  /** A byte is not 0 when one of its bits is set. */
  lemma SomeBit(x: bv8) returns (k: nat)
    ensures k < 8 && (x != 0 <==> Bit(x, k))
  {
    EightBits(x);
    k := if Bit(x, 0) then 0 else if Bit(x, 1) then 1 else if Bit(x, 2) then 2 else if Bit(x, 3) then 3
         else if Bit(x, 4) then 4 else if Bit(x, 5) then 5 else if Bit(x, 6) then 6 else 7;
  }

  lemma EightBits(x: bv8)
    ensures x != 0 <==> Bit(x, 0) || Bit(x, 1) || Bit(x, 2) || Bit(x, 3) || Bit(x, 4) || Bit(x, 5) || Bit(x, 6) || Bit(x, 7)
  {
  }

  lemma ZeroHasNoBit(x: bv8, k: nat)
    requires Bit(x, k)
    ensures x != 0
  {
  }

  /** Every byte of a filter but the two of the section length is one of the user's. */
  lemma FromUser(i: nat) returns (u: nat)
    requires i < MASK_MAX && i != 1 && i != 2
    ensures u < DMX_FILTER_SIZE && Position(u) == i
  {
    u := if i == 0 then 0 else i - 2;
  }

  lemma NothingMasked(mode: bv8, value: bv8, b: bv8)
    ensures Differing(And(0, mode), value, b) == 0 && AndNot(0, mode) == 0 && Differing(AndNot(0, mode), value, b) == 0
  {
  }

  /** The positive bits of one byte. */
  lemma PositiveByte(f: DmxFilter, s: SecFilter, sec: seq<bv8>, u: nat)
    requires IsFilter(f) && IsSecFilter(s) && Remapped(f, s) && |sec| >= MASK_MAX && u < DMX_FILTER_SIZE
    ensures var i := Position(u);
            Differing(And(s.mask[i], s.mode[i]), s.value[i], sec[i]) == 0
            <==> forall k :: 0 <= k < 8 && Positive(f, u, k) ==> SameBit(f, sec, u, k)
  {
    hide And, AndNot, Xor, Bit;
    var i := Position(u);
    var masked, xor := And(s.mask[i], s.mode[i]), Xor(s.value[i], sec[i]);
    forall k | 0 <= k < 8
      ensures Bit(And(masked, xor), k) <==> Positive(f, u, k) && !SameBit(f, sec, u, k)
    {
      BitsOf(masked, xor, k);
      BitsOf(s.mask[i], s.mode[i], k);
      BitsOf(s.value[i], sec[i], k);
      BitsOf(f.mode[u], f.mode[u], k);
    }
    var k := SomeBit(And(masked, xor));
    forall k | 0 <= k < 8 && Bit(And(masked, xor), k) ensures And(masked, xor) != 0 { ZeroHasNoBit(And(masked, xor), k); }
  }

  /** The negative bits of one byte. */
  lemma NegativeByte(f: DmxFilter, s: SecFilter, sec: seq<bv8>, u: nat)
    requires IsFilter(f) && IsSecFilter(s) && Remapped(f, s) && |sec| >= MASK_MAX && u < DMX_FILTER_SIZE
    ensures var i := Position(u);
            && (AndNot(s.mask[i], s.mode[i]) != 0 <==> exists k :: 0 <= k < 8 && Negative(f, u, k))
            && (Differing(AndNot(s.mask[i], s.mode[i]), s.value[i], sec[i]) != 0
                <==> exists k :: 0 <= k < 8 && Negative(f, u, k) && !SameBit(f, sec, u, k))
  {
    hide And, AndNot, Xor, Bit;
    var i := Position(u);
    var masked, xor := AndNot(s.mask[i], s.mode[i]), Xor(s.value[i], sec[i]);
    forall k | 0 <= k < 8
      ensures Bit(masked, k) <==> Negative(f, u, k)
      ensures Bit(And(masked, xor), k) <==> Negative(f, u, k) && !SameBit(f, sec, u, k)
    {
      BitsOf(masked, xor, k);
      BitsOf(s.mask[i], s.mode[i], k);
      BitsOf(s.value[i], sec[i], k);
      BitsOf(f.mode[u], f.mode[u], k);
    }
    var k0 := SomeBit(masked);
    var k1 := SomeBit(And(masked, xor));
    forall k | 0 <= k < 8 && Bit(masked, k) ensures masked != 0 { ZeroHasNoBit(masked, k); }
    forall k | 0 <= k < 8 && Bit(And(masked, xor), k) ensures And(masked, xor) != 0 { ZeroHasNoBit(And(masked, xor), k); }
  }

  lemma MatchingIsAccepted(f: DmxFilter, s: SecFilter, sec: seq<bv8>)
    requires IsFilter(f) && IsSecFilter(s) && Remapped(f, s) && |sec| >= MASK_MAX && Matches(f, sec)
    ensures Accepts(s, sec)
  {
    hide Differing, And, AndNot, Positive, Negative, SameBit;
    forall i | 0 <= i < MASK_MAX ensures Differing(And(s.mask[i], s.mode[i]), s.value[i], sec[i]) == 0 {
      if i == 1 || i == 2 {
        NothingMasked(s.mode[i], s.value[i], sec[i]);
      } else {
        var u := FromUser(i);
        PositiveByte(f, s, sec, u);
      }
    }
    if i :| 0 <= i < MASK_MAX && AndNot(s.mask[i], s.mode[i]) != 0 {
      NothingMasked(s.mode[i], s.value[i], sec[i]);
      var u := FromUser(i);
      NegativeByte(f, s, sec, u);
      var v, k :| 0 <= v < DMX_FILTER_SIZE && 0 <= k < 8 && Negative(f, v, k) && !SameBit(f, sec, v, k);
      NegativeByte(f, s, sec, v);
      var j := Position(v);
      assert 0 <= j < MASK_MAX && Differing(AndNot(s.mask[j], s.mode[j]), s.value[j], sec[j]) != 0;
    }
  }

  lemma AcceptedMatches(f: DmxFilter, s: SecFilter, sec: seq<bv8>)
    requires IsFilter(f) && IsSecFilter(s) && Remapped(f, s) && |sec| >= MASK_MAX && Accepts(s, sec)
    ensures Matches(f, sec)
  {
    hide Differing, And, AndNot, Positive, Negative, SameBit;
    forall u, k | 0 <= u < DMX_FILTER_SIZE && 0 <= k < 8 && Positive(f, u, k) ensures SameBit(f, sec, u, k) {
      PositiveByte(f, s, sec, u);
    }
    if u, k :| 0 <= u < DMX_FILTER_SIZE && 0 <= k < 8 && Negative(f, u, k) {
      NegativeByte(f, s, sec, u);
      assert AndNot(s.mask[Position(u)], s.mode[Position(u)]) != 0;
      var i :| 0 <= i < MASK_MAX && Differing(AndNot(s.mask[i], s.mode[i]), s.value[i], sec[i]) != 0;
      NothingMasked(s.mode[i], s.value[i], sec[i]);
      var v := FromUser(i);
      NegativeByte(f, s, sec, v);
      var j :| 0 <= j < 8 && Negative(f, v, j) && !SameBit(f, sec, v, j);
    }
  }

  /** A section is accepted exactly when it matches what the user has asked for. */
  lemma AcceptsExactlyWhenMatching(f: DmxFilter, s: SecFilter, sec: seq<bv8>)
    requires IsFilter(f) && IsSecFilter(s) && Remapped(f, s) && |sec| >= MASK_MAX
    ensures Accepts(s, sec) <==> Matches(f, sec)
  {
    hide Accepts, Matches;
    if Accepts(s, sec) { AcceptedMatches(f, s, sec); }
    if Matches(f, sec) { MatchingIsAccepted(f, s, sec); }
  }

  /** From the user's bytes to the verdict. */
  method FilterSection(f: DmxFilter, secbuf: seq<bv8>) returns (accepted: bool)
    requires IsFilter(f) && |secbuf| >= MASK_MAX
    ensures accepted <==> Matches(f, secbuf)
  {
    var mode := new bv8[DMX_FILTER_SIZE](i requires 0 <= i < DMX_FILTER_SIZE => f.mode[i]);
    InvertMode(mode);
    var filter := new DemuxSectionFilter();
    filter.SetFilter(f.filter, f.mask, mode[..]);
    filter.Prepare();
    AcceptsExactlyWhenMatching(f, filter.Sec(), secbuf);
    accepted := filter.Match(secbuf);
  }
}
