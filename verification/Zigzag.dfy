/**
 * The software zigzag of neumo-dvb-frontend.c: a frequency is searched in growing steps to both
 * sides, with both inversions if the hardware cannot tell, until there is a lock.
 */
module Zigzag {

  const INVERSION_OFF := 0
  const INVERSION_ON := 1
  const INVERSION_AUTO := 2

  // ---------------------------------------------------------------------------------------------
  // Where the search is
  // ---------------------------------------------------------------------------------------------

  /** The step size and the largest drift; `auto` if both inversions are tried in turn. */
  datatype Search = Search(stepSize: nat, maxDrift: nat, auto: bool)

  datatype Pos = Pos(step: nat, sub: nat)

  function Wrapped(z: Search, p: Pos): Pos {
    if p.step * z.stepSize > z.maxDrift then Pos(0, 0) else p
  }

  /** Sub-steps 1 and 3 change the inversion, 2 and 3 are on the other side. */
  predicate Ready(z: Search, p: Pos) {
    && (p.sub == 1 || p.sub == 3 ==> z.auto)
    && (p.sub == 2 || p.sub == 3 ==> p.step * z.stepSize != 0)
    && p.sub < 4
  }

  /** The next attempt from `p` on. */
  function Find(z: Search, p: Pos): (w: Pos)
    ensures Ready(z, w) && w.step * z.stepSize <= z.maxDrift
    decreases if p.sub == 0 then 0 else if p.sub >= 4 then 1 else 6 - p.sub
  {
    var w := Wrapped(z, p);
    if Ready(z, w) then w
    else if w.sub >= 4 then Find(z, Pos(w.step + 1, 0))
    else Find(z, Pos(w.step, w.sub + 1))
  }

  function Drift(z: Search, p: Pos): int {
    if p.sub >= 2 then -(p.step * z.stepSize) else p.step * z.stepSize
  }

  function Other(inversion: int): int {
    if inversion == INVERSION_OFF then INVERSION_ON else INVERSION_OFF
  }

  function InversionAt(p: Pos, inversion: int): int {
    if p.sub == 1 || p.sub == 3 then Other(inversion) else inversion
  }

  // ---------------------------------------------------------------------------------------------
  // The frontend
  // ---------------------------------------------------------------------------------------------

  /** What set_frontend is called with. */
  datatype Tune = Tune(frequency: int, inversion: int)

  /** The states the zigzag goes through; SearchingSlow is both slow bits at once. */
  datatype FeState = Idle | Retune | TuningFast | ZigzagFast | SearchingSlow | Tuned | Diseqc | Error

  predicate WaitForLock(s: FeState) {
    s.TuningFast? || s.ZigzagFast? || s.SearchingSlow? || s.Diseqc?
  }

  predicate SearchingFast(s: FeState) {
    s.TuningFast? || s.ZigzagFast?
  }

  predicate LostLock(s: FeState) {
    s.ZigzagFast? || s.SearchingSlow?
  }

  class Frontend {
    const stepSize: nat
    const maxDrift: nat
    const canInversionAuto: bool
    const canRecover: bool
    const oneshot: bool

    var frequency: int
    var cachedInversion: int

    var state: FeState
    var inversion: int
    var lnbDrift: int
    var autoStep: nat
    var autoSubStep: nat
    var startedAutoStep: nat
    var checkWrapped: bool
    /** The calls of set_frontend, in order. */
    var tuned: seq<Tune>

    ghost predicate Valid()
      reads this
    {
      inversion == INVERSION_OFF || inversion == INVERSION_ON
    }

    function Auto(): bool
      reads this
    {
      !canInversionAuto && cachedInversion == INVERSION_AUTO
    }

    ghost function Zs(): Search
      reads this
    {
      Search(stepSize, maxDrift, Auto())
    }

    ghost function At(): Pos
      reads this
    {
      Pos(autoStep, autoSubStep)
    }

    constructor (stepSize: nat, maxDrift: nat, canInversionAuto: bool, canRecover: bool, oneshot: bool, frequency: int, cachedInversion: int)
      ensures Valid() && state == Retune && tuned == []
      ensures this.stepSize == stepSize && this.maxDrift == maxDrift && this.canInversionAuto == canInversionAuto
      ensures this.canRecover == canRecover && this.oneshot == oneshot
      ensures this.frequency == frequency && this.cachedInversion == cachedInversion
    {
      this.stepSize, this.maxDrift, this.canInversionAuto := stepSize, maxDrift, canInversionAuto;
      this.canRecover, this.oneshot, this.frequency, this.cachedInversion := canRecover, oneshot, frequency, cachedInversion;
      state, inversion, lnbDrift, autoStep, autoSubStep := Retune, INVERSION_OFF, 0, 0, 0;
      startedAutoStep, checkWrapped, tuned := 0, false, [];
    }

    /** The loop of neumo_dvb_frontend_swzigzag_autotune that looks for the next attempt. */
    method FindNext(autoinversion: bool)
      requires Valid() && autoinversion == Auto()
      modifies `lnbDrift, `autoStep, `autoSubStep, `inversion
      ensures Valid() && At() == Find(Zs(), old(At()))
      ensures lnbDrift == Drift(Zs(), At()) && inversion == InversionAt(At(), old(inversion))
    {
      ghost var z := Zs();
      var ready := false;
      while !ready
        invariant Valid()
        invariant !ready ==> Find(z, At()) == Find(z, old(At())) && inversion == old(inversion)
        invariant ready ==> At() == Find(z, old(At())) && lnbDrift == Drift(z, At()) && inversion == InversionAt(At(), old(inversion))
        decreases !ready, if autoSubStep == 0 then 0 else if autoSubStep >= 4 then 1 else 6 - autoSubStep
      {
        lnbDrift := autoStep * stepSize;
        if lnbDrift > maxDrift {
          autoStep, autoSubStep, lnbDrift := 0, 0, 0;
        }
        if autoSubStep == 0 {
          ready := true;
        } else if autoSubStep == 1 {
          if autoinversion {
            inversion := if inversion == INVERSION_OFF then INVERSION_ON else INVERSION_OFF;
            ready := true;
          }
        } else if autoSubStep == 2 {
          if lnbDrift != 0 {
            lnbDrift := -lnbDrift;
            ready := true;
          }
        } else if autoSubStep == 3 {
          if lnbDrift != 0 && autoinversion {
            inversion := if inversion == INVERSION_OFF then INVERSION_ON else INVERSION_OFF;
            lnbDrift := -lnbDrift;
            ready := true;
          }
        }
        if !ready {
          if autoSubStep >= 4 {
            autoStep, autoSubStep := autoStep + 1, 0;
          } else {
            autoSubStep := autoSubStep + 1;
          }
        }
      }
    }

    /** neumo_dvb_frontend_swzigzag_autotune; `err` is what set_frontend answers. */
    method Autotune(check: bool, err: int) returns (ret: int)
      requires Valid()
      modifies `lnbDrift, `autoStep, `autoSubStep, `inversion, `frequency, `cachedInversion, `tuned, `state
      ensures Valid()
      ensures var w := Find(old(Zs()), old(At()));
              var wrapped := check && w == Pos(startedAutoStep, 0);
              && inversion == InversionAt(w, old(inversion))
              && (wrapped ==> ret == 1 && At() == w && tuned == old(tuned) && frequency == old(frequency)
                              && cachedInversion == old(cachedInversion) && state == old(state))
              && (!wrapped ==>
                    tuned == old(tuned) + [Tune(old(frequency) + Drift(old(Zs()), w), if old(Auto()) then inversion else old(cachedInversion))])
              && (!wrapped && err < 0 ==>
                    ret == err && state == Error && At() == w && frequency == old(frequency) + Drift(old(Zs()), w)
                    && cachedInversion == if old(Auto()) then inversion else old(cachedInversion))
              && (!wrapped && err >= 0 ==>
                    ret == 0 && state == old(state) && At() == Pos(w.step, w.sub + 1)
                    && frequency == old(frequency) && cachedInversion == old(cachedInversion))
    {
      var originalInversion, originalFrequency := cachedInversion, frequency;
      var autoinversion := Auto();
      FindNext(autoinversion);
      if autoStep == startedAutoStep && autoSubStep == 0 && check {
        return 1;
      }
      frequency := frequency + lnbDrift;
      if autoinversion {
        cachedInversion := inversion;
      }
      tuned := tuned + [Tune(frequency, cachedInversion)];
      if err < 0 {
        state := Error;
        return err;
      }
      frequency := originalFrequency;
      cachedInversion := originalInversion;
      autoSubStep := autoSubStep + 1;
      ret := 0;
    }

    /** One attempt after another has been made from position `p` on. */
    twostate predicate Attempted(p: Pos)
      reads this
    {
      var w := Find(old(Zs()), p);
      && inversion == InversionAt(w, old(inversion)) && At() == Pos(w.step, w.sub + 1)
      && frequency == old(frequency) && cachedInversion == old(cachedInversion)
      && tuned == old(tuned) + [Tune(frequency + Drift(old(Zs()), w), if old(Auto()) then inversion else cachedInversion)]
    }

    twostate predicate Untouched()
      reads this
    {
      && frequency == old(frequency) && tuned == old(tuned) && inversion == old(inversion) && At() == old(At())
    }

    /** An attempt from position `p` on, and what an error of set_frontend leaves behind. */
    twostate predicate Tried(p: Pos, err: int)
      reads this
    {
      var w := Find(old(Zs()), p);
      if err >= 0 then Attempted(p)
      else
        && state == Error && inversion == InversionAt(w, old(inversion)) && At() == w
        && frequency == old(frequency) + Drift(old(Zs()), w)
        && cachedInversion == (if old(Auto()) then inversion else old(cachedInversion))
        && tuned == old(tuned) + [Tune(frequency, cachedInversion)]
    }

    /** The search has come round: nothing is tuned, and from now on it is slow. */
    twostate predicate SlowedDown()
      reads this
    {
      && state == SearchingSlow && At() == Pos(old(startedAutoStep), 0) && startedAutoStep == old(startedAutoStep)
      && checkWrapped == old(checkWrapped) && tuned == old(tuned) && frequency == old(frequency)
      && cachedInversion == old(cachedInversion) && inversion == old(inversion)
    }

    twostate predicate Same()
      reads this
    {
      && state == old(state) && Untouched() && cachedInversion == old(cachedInversion)
      && startedAutoStep == old(startedAutoStep) && checkWrapped == old(checkWrapped) && lnbDrift == old(lnbDrift)
    }

    /** The hardware gets its lock back by itself. */
    predicate Recovers() {
      canRecover && maxDrift == 0
    }

    /** The second half of neumo_dvb_frontend_swzigzag: the fast or the slow zigzag. */
    method Attempt(err: int)
      requires Valid()
      modifies `state, `lnbDrift, `autoStep, `autoSubStep, `startedAutoStep, `checkWrapped, `inversion, `frequency,
               `cachedInversion, `tuned
      ensures Valid()
      ensures old(state).Retune? && !old(checkWrapped) ==>
                && Tried(old(At()), err) && startedAutoStep == old(startedAutoStep)
                && checkWrapped == (err >= 0) && (err >= 0 ==> state == TuningFast)
      ensures SearchingFast(old(state)) ==>
                if old(checkWrapped) && Find(old(Zs()), old(At())) == Pos(old(startedAutoStep), 0) then SlowedDown()
                else
                  && Tried(old(At()), err) && startedAutoStep == old(startedAutoStep)
                  && checkWrapped == (err >= 0 || old(checkWrapped)) && (err >= 0 ==> state == old(state))
      ensures old(state).SearchingSlow? ==>
                && Tried(old(At()), err) && startedAutoStep == old(startedAutoStep)
                && checkWrapped == old(checkWrapped) && (err >= 0 ==> state == old(state))
      ensures !SearchingFast(old(state)) && !old(state).Retune? && !old(state).SearchingSlow? ==> Same()
    {
      hide Find, Drift;
      if SearchingFast(state) || state.Retune? {
        var retval := Autotune(checkWrapped, err);
        if retval < 0 {
          return;
        } else if retval != 0 {
          state := SearchingSlow;
          startedAutoStep := autoStep;
          return;
        }
        checkWrapped := true;
        if state.Retune? {
          state := TuningFast;
        }
      }
      if state.SearchingSlow? {
        var retval := Autotune(false, err);
      }
    }

    /**
     * neumo_dvb_frontend_swzigzag. `lock` is FE_HAS_LOCK in the status read, which is not read while
     * a retune is pending; `err` is what set_frontend answers if it is called.
     */
    method Swzigzag(lock: bool, err: int)
      requires Valid()
      modifies `state, `lnbDrift, `autoStep, `autoSubStep, `startedAutoStep, `checkWrapped, `inversion, `frequency,
               `cachedInversion, `tuned
      ensures Valid()
      ensures old(state).Idle? ==> Same()
      ensures oneshot && old(state).Retune? ==>
                && state == (if err < 0 then Error else Tuned)
                && tuned == old(tuned) + [Tune(frequency, cachedInversion)] && frequency == old(frequency)
                && cachedInversion == old(cachedInversion) && inversion == old(inversion) && At() == old(At())
      ensures oneshot && !old(state).Retune? ==> Same()
      ensures !oneshot && old(state) in {TuningFast, ZigzagFast, SearchingSlow, Diseqc} && lock ==>
                && state == Tuned && tuned == old(tuned) && frequency == old(frequency)
                && inversion == old(inversion) && At() == old(At())
                && cachedInversion == if !canInversionAuto && old(cachedInversion) == 2 then inversion else old(cachedInversion)
      ensures !oneshot && old(state).Tuned? && lock ==> Same()
      ensures !oneshot && old(state).Retune? ==>
                && Tried(Pos(0, 0), err) && startedAutoStep == 0 && checkWrapped == (err >= 0)
                && (err >= 0 ==> state == TuningFast)
      ensures !oneshot && old(state) in {TuningFast, ZigzagFast} && !lock && !(old(state).ZigzagFast? && Recovers()) ==>
                if old(checkWrapped) && Find(old(Zs()), old(At())) == Pos(old(startedAutoStep), 0) then SlowedDown()
                else
                  && Tried(old(At()), err) && startedAutoStep == old(startedAutoStep)
                  && checkWrapped == (err >= 0 || old(checkWrapped)) && (err >= 0 ==> state == old(state))
      ensures !oneshot && old(state).SearchingSlow? && !lock && !Recovers() ==>
                && Tried(old(At()), err) && startedAutoStep == old(startedAutoStep)
                && checkWrapped == old(checkWrapped) && (err >= 0 ==> state == old(state))
      ensures !oneshot && old(state).Tuned? && !lock && !Recovers() ==>
                && Tried(old(At()), err) && startedAutoStep == old(autoStep) && checkWrapped == (err >= 0)
                && (err >= 0 ==> state == ZigzagFast)
      ensures !oneshot && old(state).Tuned? && !lock && Recovers() ==>
                && state == ZigzagFast && startedAutoStep == old(autoStep) && !checkWrapped
                && Untouched() && cachedInversion == old(cachedInversion)
      ensures !oneshot && old(state) in {ZigzagFast, SearchingSlow} && !lock && canRecover && maxDrift == 0 ==> Same()
      ensures !oneshot && (old(state).Error? || (old(state).Diseqc? && !lock)) ==> Same()
    {
      hide Find, Drift, InversionAt;
      if state.Idle? { return; }
      if oneshot {
        if state.Retune? {
          tuned := tuned + [Tune(frequency, cachedInversion)];
          state := if err < 0 then Error else Tuned;
        }
        return;
      }
      var locked := !state.Retune? && lock;
      if WaitForLock(state) && locked {
        state := Tuned;
        if Auto() {
          cachedInversion := inversion;
        }
        return;
      }
      if state.Tuned? {
        if locked { return; }
        state := ZigzagFast;
        startedAutoStep := autoStep;
        checkWrapped := false;
      }
      if LostLock(state) && Recovers() { return; }
      if state.Diseqc? { return; }
      if state.Retune? {
        lnbDrift, autoStep, autoSubStep, startedAutoStep, checkWrapped := 0, 0, 0, 0, false;
      }
      Attempt(err);
    }
  }

  // ---------------------------------------------------------------------------------------------
  // One whole iteration
  // ---------------------------------------------------------------------------------------------

  /** The largest step within the drift allowed. */
  function Steps(z: Search): (k: int)
    requires z.stepSize > 0
    ensures k >= 0
  {
    z.maxDrift / z.stepSize
  }

  /** How many attempts one iteration has. */
  function Total(z: Search): nat
    requires z.stepSize > 0
  {
    if z.auto then 2 + 4 * Steps(z) else 1 + 2 * Steps(z)
  }

  /** The `n`-th of them. */
  function PosOf(z: Search, n: nat): Pos {
    if z.auto then (if n < 2 then Pos(0, n) else Pos((n - 2) / 4 + 1, (n - 2) % 4))
    else if n == 0 then Pos(0, 0) else Pos((n - 1) / 2 + 1, (n - 1) % 2 * 2)
  }

  /** Whether it is made with the other inversion than the first one. */
  predicate Flipped(z: Search, n: nat) {
    z.auto && (if n < 2 then n == 1 else (n - 2) % 4 == 0 || (n - 2) % 4 == 3)
  }

  lemma WithinDrift(z: Search, k: nat)
    requires z.stepSize > 0
    ensures k * z.stepSize <= z.maxDrift <==> k <= Steps(z)
    ensures k > 0 ==> k * z.stepSize > 0
  {
    if k <= Steps(z) {
      assert k * z.stepSize <= Steps(z) * z.stepSize <= z.maxDrift;
    } else {
      assert k * z.stepSize >= (Steps(z) + 1) * z.stepSize > z.maxDrift;
    }
  }

  lemma PosOfSteps(z: Search, n: nat)
    requires z.stepSize > 0
    ensures n < Total(z) <==> PosOf(z, n).step <= Steps(z)
  {
  }

  lemma FindReady(z: Search, p: Pos)
    requires p.step * z.stepSize <= z.maxDrift
    ensures Ready(z, p) ==> Find(z, p) == p
    ensures !Ready(z, p) ==> Find(z, p) == Find(z, if p.sub >= 4 then Pos(p.step + 1, 0) else Pos(p.step, p.sub + 1))
  {
  }

  lemma FindWraps(z: Search, p: Pos)
    requires p.step * z.stepSize > z.maxDrift
    ensures Find(z, p) == Pos(0, 0)
  {
  }

  /** Behind one attempt comes the next; behind the last one the search is back at the start. */
  lemma NextAttempt(z: Search, n: nat)
    requires z.stepSize > 0 && n < Total(z)
    ensures var w := PosOf(z, n);
            Find(z, Pos(w.step, w.sub + 1)) == if n + 1 < Total(z) then PosOf(z, n + 1) else Pos(0, 0)
  {
    hide Find;
    var w := PosOf(z, n);
    PosOfSteps(z, n);
    PosOfSteps(z, n + 1);
    WithinDrift(z, w.step);
    WithinDrift(z, w.step + 1);
    var i := w.sub + 1;
    while i < 4 && !Ready(z, Pos(w.step, i))
      invariant w.sub < i <= 4 && Find(z, Pos(w.step, w.sub + 1)) == Find(z, Pos(w.step, i))
      invariant forall j :: w.sub < j < i ==> !Ready(z, Pos(w.step, j))
    {
      FindReady(z, Pos(w.step, i));
      i := i + 1;
    }
    FindReady(z, Pos(w.step, i));
    if i == 4 {
      if w.step + 1 <= Steps(z) { FindReady(z, Pos(w.step + 1, 0)); } else { FindWraps(z, Pos(w.step + 1, 0)); }
    }
  }

  // ---------------------------------------------------------------------------------------------
  // Coverage
  // ---------------------------------------------------------------------------------------------

  /** The attempt for `j` steps up, or down if `j` is negative, and for one inversion or the other. */
  function IndexOf(z: Search, j: int, flip: bool): nat {
    if z.auto then
      if j == 0 then (if flip then 1 else 0)
      else if j > 0 then 2 + 4 * (j - 1) + (if flip then 0 else 1)
      else 2 + 4 * (-j - 1) + (if flip then 3 else 2)
    else if j > 0 then 2 * j - 1 else -2 * j
  }

  function SignedStep(z: Search, n: nat): int {
    if PosOf(z, n).sub >= 2 then 0 - PosOf(z, n).step else PosOf(z, n).step
  }

  /** Every signed number of steps within the drift is an attempt, with every inversion that is tried. */
  lemma EveryStepHasAnAttempt(z: Search, j: int, flip: bool)
    requires z.stepSize > 0 && -Steps(z) <= j <= Steps(z) && (flip ==> z.auto)
    ensures IndexOf(z, j, flip) < Total(z)
    ensures SignedStep(z, IndexOf(z, j, flip)) == j && Flipped(z, IndexOf(z, j, flip)) == flip
    ensures Drift(z, PosOf(z, IndexOf(z, j, flip))) == j * z.stepSize
  {
    var n := IndexOf(z, j, flip);
    var w := PosOf(z, n);
    assert SignedStep(z, n) == j;
    if w.sub >= 2 { assert w.step == -j && -(w.step * z.stepSize) == j * z.stepSize; }
  }

  /** And every attempt is the one for its step and inversion. */
  lemma EveryAttemptIsForOneStep(z: Search, n: nat)
    requires z.stepSize > 0 && n < Total(z)
    ensures -Steps(z) <= SignedStep(z, n) <= Steps(z) && (Flipped(z, n) ==> z.auto)
    ensures IndexOf(z, SignedStep(z, n), Flipped(z, n)) == n
    ensures Drift(z, PosOf(z, n)) == SignedStep(z, n) * z.stepSize
  {
    PosOfSteps(z, n);
    var w := PosOf(z, n);
    if w.sub >= 2 { assert -(w.step * z.stepSize) == (0 - w.step) * z.stepSize; }
  }

  /** The call of set_frontend in the `n`-th attempt, if `inversion` was current at the start. */
  function TuneAt(z: Search, n: nat, frequency: int, cached: int, inversion: int): Tune {
    Tune(frequency + Drift(z, PosOf(z, n)), if !z.auto then cached else if Flipped(z, n) then Other(inversion) else inversion)
  }

  /** The inversion current behind the `n`-th attempt is the one it was made with. */
  function InversionBehind(z: Search, n: nat, inversion: int): int {
    if z.auto && Flipped(z, n) then Other(inversion) else inversion
  }

  lemma InversionGoesOn(z: Search, n: nat, inversion: int)
    requires inversion == INVERSION_OFF || inversion == INVERSION_ON
    ensures InversionAt(PosOf(z, n + 1), InversionBehind(z, n, inversion)) == InversionBehind(z, n + 1, inversion)
  {
  }

  /**
   * In the calls of one iteration every pair of a signed step within the drift and an inversion that
   * is tried occurs exactly once.
   */
  lemma Coverage(z: Search, frequency: int, cached: int, inversion: int, log: seq<Tune>)
    requires z.stepSize > 0 && |log| == Total(z) && (inversion == INVERSION_OFF || inversion == INVERSION_ON)
    requires forall n :: 0 <= n < Total(z) ==> log[n] == TuneAt(z, n, frequency, cached, inversion)
    ensures forall j, flip :: -Steps(z) <= j <= Steps(z) && (flip ==> z.auto) ==>
              var t := Tune(frequency + j * z.stepSize,
                            if !z.auto then cached else if flip then Other(inversion) else inversion);
              && IndexOf(z, j, flip) < |log| && log[IndexOf(z, j, flip)] == t
              && forall m :: 0 <= m < |log| && log[m] == t ==> m == IndexOf(z, j, flip)
    ensures forall n :: 0 <= n < |log| ==>
              -Steps(z) <= SignedStep(z, n) <= Steps(z) && log[n].frequency == frequency + SignedStep(z, n) * z.stepSize
  {
    hide PosOf, Flipped, IndexOf, SignedStep, Drift, Total, Steps;
    forall n | 0 <= n < |log|
      ensures -Steps(z) <= SignedStep(z, n) <= Steps(z) && log[n].frequency == frequency + SignedStep(z, n) * z.stepSize
    {
      EveryAttemptIsForOneStep(z, n);
    }
    forall j, flip | -Steps(z) <= j <= Steps(z) && (flip ==> z.auto)
      ensures var t := Tune(frequency + j * z.stepSize,
                            if !z.auto then cached else if flip then Other(inversion) else inversion);
              && IndexOf(z, j, flip) < |log| && log[IndexOf(z, j, flip)] == t
              && forall m :: 0 <= m < |log| && log[m] == t ==> m == IndexOf(z, j, flip)
    {
      EveryStepHasAnAttempt(z, j, flip);
      forall m | 0 <= m < |log| && log[m] == log[IndexOf(z, j, flip)] ensures m == IndexOf(z, j, flip) {
        EveryAttemptIsForOneStep(z, m);
        SameStep(z.stepSize, SignedStep(z, m), j);
      }
    }
  }

  lemma SameStep(size: nat, i: int, j: int)
    requires size > 0 && i * size == j * size
    ensures i == j
  {
    assert (i - j) * size == 0;
  }

  /**
   * Called again and again without a lock, and with set_frontend working, the frontend makes one
   * whole iteration between a retune and the slow search, and leaves the parameters as they were.
   */
  method SearchWithoutLock(fe: Frontend)
    requires fe.Valid() && fe.state.Retune? && !fe.oneshot && fe.stepSize > 0
    modifies fe
    ensures fe.Valid() && fe.state == SearchingSlow
    ensures fe.frequency == old(fe.frequency) && fe.cachedInversion == old(fe.cachedInversion)
    ensures var z := Search(fe.stepSize, fe.maxDrift, !fe.canInversionAuto && old(fe.cachedInversion) == 2);
            && |fe.tuned| == |old(fe.tuned)| + Total(z) && old(fe.tuned) <= fe.tuned
            && forall n :: 0 <= n < Total(z) ==>
                 fe.tuned[|old(fe.tuned)|..][n] == TuneAt(z, n, old(fe.frequency), old(fe.cachedInversion), old(fe.inversion))
  {
    hide Find, PosOf, Flipped, Drift, Steps, InversionAt, Total;
    ghost var z, base, i0 := fe.Zs(), fe.tuned, fe.inversion;
    FirstAttempt(z, i0);
    fe.Swzigzag(false, 0);
    ghost var n := 1;
    while fe.state != SearchingSlow
      invariant fe.Valid() && 1 <= n <= Total(z) && fe.Zs() == z
      invariant fe.state.TuningFast? || fe.state.SearchingSlow?
      invariant fe.state.SearchingSlow? ==> n == Total(z)
      invariant fe.frequency == old(fe.frequency) && fe.cachedInversion == old(fe.cachedInversion)
      invariant fe.state.TuningFast? ==>
                  && fe.checkWrapped && fe.startedAutoStep == 0
                  && fe.At() == Pos(PosOf(z, n - 1).step, PosOf(z, n - 1).sub + 1)
                  && fe.inversion == InversionBehind(z, n - 1, i0)
      invariant |fe.tuned| == |base| + n && base <= fe.tuned
      invariant forall m :: 0 <= m < n ==> fe.tuned[|base|..][m] == TuneAt(z, m, old(fe.frequency), old(fe.cachedInversion), i0)
      decreases Total(z) - n, fe.state.TuningFast?
    {
      NextAttempt(z, n - 1);
      InversionGoesOn(z, n - 1, i0);
      NotTheFirst(z, n);
      ghost var before := fe.tuned;
      fe.Swzigzag(false, 0);
      if fe.state.TuningFast? {
        assert fe.tuned[|base|..] == before[|base|..] + [fe.tuned[|base| + n]];
        n := n + 1;
      }
    }
  }

  lemma FirstAttempt(z: Search, inversion: int)
    ensures Find(z, Pos(0, 0)) == Pos(0, 0) == PosOf(z, 0)
    ensures InversionAt(Pos(0, 0), inversion) == InversionBehind(z, 0, inversion) == inversion
    ensures z.stepSize > 0 ==> Total(z) >= 1
  {
  }

  lemma NotTheFirst(z: Search, n: nat)
    requires z.stepSize > 0 && n > 0
    ensures PosOf(z, n) != Pos(0, 0)
  {
  }

  /**
   * How many attempts so many calls without a lock make: one each, but none in the call that finds
   * the fast search at its end, and none behind that if the hardware recovers by itself.
   */
  function Attempts(z: Search, canRecover: bool, calls: nat): nat {
    if z.stepSize == 0 || calls <= Total(z) then calls
    else if canRecover && z.maxDrift == 0 then Total(z)
    else calls - 1
  }

  /**
   * `calls` of them without a lock, and then one: the search is over, and the inversion of the last
   * attempt is kept. With the lock nothing more is tuned.
   */
  method SearchUntilLock(fe: Frontend, calls: nat, later: nat)
    requires fe.Valid() && fe.state.Retune? && !fe.oneshot && calls > 0
    modifies fe
    ensures fe.Valid() && fe.state == Tuned && fe.frequency == old(fe.frequency)
    ensures var z := Search(fe.stepSize, fe.maxDrift, !fe.canInversionAuto && old(fe.cachedInversion) == 2);
            && old(fe.tuned) < fe.tuned && fe.cachedInversion == fe.tuned[|fe.tuned| - 1].inversion
            && |fe.tuned| == |old(fe.tuned)| + Attempts(z, fe.canRecover, calls)
            && (z.stepSize > 0 ==>
                  forall n :: 0 <= n < calls && n < Total(z) ==>
                    fe.tuned[|old(fe.tuned)| + n] == TuneAt(z, n, old(fe.frequency), old(fe.cachedInversion), old(fe.inversion)))
  {
    hide Find, PosOf, Flipped, Drift, Steps, InversionAt, Total;
    ghost var z, base, i0 := fe.Zs(), fe.tuned, fe.inversion;
    FirstAttempt(z, i0);
    fe.Swzigzag(false, 0);
    for i := 1 to calls
      invariant fe.Valid() && fe.Zs() == z && fe.state in {TuningFast, SearchingSlow}
      invariant fe.frequency == old(fe.frequency) && fe.cachedInversion == old(fe.cachedInversion)
      invariant fe.state.SearchingSlow? <==> z.stepSize > 0 && i > Total(z)
      invariant |fe.tuned| == |base| + Attempts(z, fe.canRecover, i) && base < fe.tuned
      invariant fe.tuned[|fe.tuned| - 1].inversion == if z.auto then fe.inversion else fe.cachedInversion
      invariant fe.state.TuningFast? ==> fe.checkWrapped && fe.startedAutoStep == 0 && fe.At() != Pos(0, 0)
      invariant fe.state.TuningFast? && z.stepSize > 0 ==>
                  && fe.At() == Pos(PosOf(z, i - 1).step, PosOf(z, i - 1).sub + 1)
                  && fe.inversion == InversionBehind(z, i - 1, i0)
      invariant z.stepSize > 0 ==>
                  forall m :: 0 <= m < i && m < Total(z) ==>
                    |base| + m < |fe.tuned|
                    && fe.tuned[|base| + m] == TuneAt(z, m, old(fe.frequency), old(fe.cachedInversion), i0)
    {
      if z.stepSize == 0 {
        NeverBack(z, fe.At());
      } else if fe.state.TuningFast? {
        NextAttempt(z, i - 1);
        InversionGoesOn(z, i - 1, i0);
        NotTheFirst(z, i);
      }
      StaysAtStart(Find(z, fe.At()), fe.inversion);
      fe.Swzigzag(false, 0);
    }
    fe.Swzigzag(true, 0);
    ghost var found, kept := fe.tuned, fe.cachedInversion;
    for i := 0 to later
      invariant fe.Valid() && fe.state == Tuned && fe.tuned == found && fe.cachedInversion == kept
      invariant fe.frequency == old(fe.frequency)
    {
      fe.Swzigzag(true, 0);
    }
  }

  lemma StaysAtStart(p: Pos, inversion: int)
    ensures p == Pos(0, 0) ==> InversionAt(p, inversion) == inversion
    ensures Pos(p.step, p.sub + 1) != Pos(0, 0)
  {
  }

  // ---------------------------------------------------------------------------------------------
  // Without a step size
  // ---------------------------------------------------------------------------------------------

  /** The attempt `k` places behind the first one from `p` on. */
  function Later(z: Search, p: Pos, k: nat): Pos
    decreases k
  {
    if k == 0 then Find(z, p) else Later(z, Pos(Find(z, p).step, Find(z, p).sub + 1), k - 1)
  }

  /** From any other position the search gets back to the first one exactly when the step size is not 0. */
  lemma ComesBackExactlyWhenSteps(z: Search, p: Pos)
    requires p != Pos(0, 0)
    ensures (exists k :: Later(z, p, k) == Pos(0, 0)) <==> z.stepSize > 0
  {
    if z.stepSize > 0 {
      var k := ComesBack(z, p);
    } else {
      forall k: nat ensures Later(z, p, k) != Pos(0, 0) {
        NeverComesBack(z, p, k);
      }
    }
  }

  /** A search over steps goes on upwards until it is out of the drift allowed. */
  lemma {:induction false} ComesBack(z: Search, p: Pos) returns (k: nat)
    requires z.stepSize > 0
    ensures Later(z, p, k) == Pos(0, 0)
    decreases if p.step > z.maxDrift then 0 else (z.maxDrift + 1 - p.step) * 6 + if p.sub >= 5 then 0 else 5 - p.sub
  {
    hide Find;
    var w := Find(z, p);
    k := 0;
    if w != Pos(0, 0) {
      FindUpwards(z, p);
      AtMost(w.step, z.stepSize, z.maxDrift);
      var j := ComesBack(z, Pos(w.step, w.sub + 1));
      k := j + 1;
    }
  }

  lemma AtMost(n: nat, size: nat, max: nat)
    requires size > 0 && n * size <= max
    ensures n <= max
  {
    assert n * size >= n * 1;
  }

  lemma {:induction false} FindUpwards(z: Search, p: Pos)
    ensures var w := Find(z, p);
            && w.sub < 4 && w.step * z.stepSize <= z.maxDrift
            && (w == Pos(0, 0) || w.step > p.step || (w.step == p.step && w.sub >= p.sub))
    decreases if p.sub == 0 then 0 else if p.sub >= 4 then 1 else 6 - p.sub
  {
    var w := Wrapped(z, p);
    if !Ready(z, w) { FindUpwards(z, if w.sub >= 4 then Pos(w.step + 1, 0) else Pos(w.step, w.sub + 1)); }
  }

  lemma {:induction false} NeverComesBack(z: Search, p: Pos, k: nat)
    requires z.stepSize == 0 && p != Pos(0, 0)
    ensures Later(z, p, k) != Pos(0, 0)
    decreases k
  {
    hide Find;
    NeverBack(z, p);
    if k > 0 { NeverComesBack(z, Pos(Find(z, p).step, Find(z, p).sub + 1), k - 1); }
  }

  /**
   * So without a step size and without a lock the search stays fast for good, and tunes one and the
   * same frequency in every call.
   */
  method SearchWithoutSteps(fe: Frontend, calls: nat)
    requires fe.Valid() && fe.state.Retune? && !fe.oneshot && fe.stepSize == 0
    modifies fe
    ensures fe.Valid() && fe.state == if calls == 0 then Retune else TuningFast
    ensures |fe.tuned| == |old(fe.tuned)| + calls && old(fe.tuned) <= fe.tuned
    ensures forall n :: |old(fe.tuned)| <= n < |fe.tuned| ==> fe.tuned[n].frequency == old(fe.frequency)
  {
    hide Find;
    for i := 0 to calls
      invariant fe.Valid() && fe.frequency == old(fe.frequency)
      invariant if i == 0 then fe.state == Retune else
                  fe.state == TuningFast && fe.startedAutoStep == 0 && fe.checkWrapped && fe.At() != Pos(0, 0)
      invariant |fe.tuned| == |old(fe.tuned)| + i && old(fe.tuned) <= fe.tuned
      invariant forall n :: |old(fe.tuned)| <= n < |fe.tuned| ==> fe.tuned[n].frequency == old(fe.frequency)
    {
      if i > 0 { NeverBack(fe.Zs(), fe.At()); }
      NoDrift(fe.Zs(), Find(fe.Zs(), if i == 0 then Pos(0, 0) else fe.At()));
      fe.Swzigzag(false, 0);
    }
  }

  lemma NoDrift(z: Search, p: Pos)
    requires z.stepSize == 0
    ensures Drift(z, p) == 0
  {
  }

  lemma {:induction false} NeverBack(z: Search, p: Pos)
    requires z.stepSize == 0 && p != Pos(0, 0)
    ensures Find(z, p) != Pos(0, 0)
    decreases if p.sub == 0 then 0 else if p.sub >= 4 then 1 else 6 - p.sub
  {
    assert Wrapped(z, p) == p;
    if !Ready(z, p) {
      NeverBack(z, if p.sub >= 4 then Pos(p.step + 1, 0) else Pos(p.step, p.sub + 1));
    }
  }
}
