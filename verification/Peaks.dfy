/**
 * The peak list of neumo-scan.c: a candidate is compared with every peak kept so far, peaks that
 * lose to it are deleted while the list is being walked, and it is dropped itself if one of them wins.
 */
module Peaks {

  /** A peak as far as the comparison looks at it. */
  datatype Peak = Peak(
    riseIdx: int, fallIdx: int, lowestLeftIdx: int, lowestRightIdx: int, lowestLeftLevel: int, lowestRightLevel: int,
    meanLevel: int, fluctuation: int, meanSnr: int, dipSnr: int)

  // ---------------------------------------------------------------------------------------------
  // The comparison
  // ---------------------------------------------------------------------------------------------

  predicate Within(i: int, p: Peak) {
    p.riseIdx <= i <= p.fallIdx
  }

  predicate Inside(i: int, p: Peak) {
    p.riseIdx < i < p.fallIdx
  }

  /** is_part_of */
  predicate IsPartOf(a: Peak, b: Peak) {
    Within(a.riseIdx, b) && Within(a.fallIdx, b)
  }

  /** A dip of one peak inside the other that is deep compared with the other's fluctuation. */
  predicate DeepDip(idx: int, level: int, p: Peak) {
    Inside(idx, p) && p.meanLevel - level >= p.fluctuation * 8
  }

  /** is_better_than: positive if `a` is to be kept, negative if `b` is, 0 if both can stay. */
  function IsBetterThan(a: Peak, b: Peak): int {
    if DeepDip(a.lowestLeftIdx, a.lowestLeftLevel, b) || DeepDip(a.lowestRightIdx, a.lowestRightLevel, b) then 1
    else if IsPartOf(a, b) then -1
    else if DeepDip(b.lowestLeftIdx, b.lowestLeftLevel, a) || DeepDip(b.lowestRightIdx, b.lowestRightLevel, a) then -1
    else if IsPartOf(b, a) then 1
    else if !Inside(a.lowestLeftIdx, b) && !Inside(a.lowestRightIdx, b)
            && !Inside(b.lowestLeftIdx, a) && !Inside(b.lowestRightIdx, a) then 0
    else if a.meanSnr >= b.meanSnr then 1 else -1
  }

  /** Neither peak lies in the other, and no dip of one lies inside the other. */
  predicate Apart(a: Peak, b: Peak) {
    && !IsPartOf(a, b) && !IsPartOf(b, a)
    && !Inside(a.lowestLeftIdx, b) && !Inside(a.lowestRightIdx, b)
    && !Inside(b.lowestLeftIdx, a) && !Inside(b.lowestRightIdx, a)
  }

  /** "No conflict" is what it should be, so the order of the two does not matter for it. */
  lemma NoConflictExactlyWhenApart(a: Peak, b: Peak)
    ensures IsBetterThan(a, b) == 0 <==> Apart(a, b)
    ensures IsBetterThan(a, b) == 0 <==> IsBetterThan(b, a) == 0
  {
  }

  // The rules by which one of two peaks in conflict stays.

  /** A dip of `a` lies inside `b`, at least eight times the fluctuation of `b` below its level. */
  predicate Splits(a: Peak, b: Peak) {
    || (b.riseIdx < a.lowestLeftIdx < b.fallIdx && a.lowestLeftLevel <= b.meanLevel - 8 * b.fluctuation)
    || (b.riseIdx < a.lowestRightIdx < b.fallIdx && a.lowestRightLevel <= b.meanLevel - 8 * b.fluctuation)
  }

  /** `a` begins and ends within `b`. */
  predicate Contained(a: Peak, b: Peak) {
    b.riseIdx <= a.riseIdx <= b.fallIdx && b.riseIdx <= a.fallIdx <= b.fallIdx
  }

  /** A dip of either lies inside the other. */
  predicate Overlap(a: Peak, b: Peak) {
    || b.riseIdx < a.lowestLeftIdx < b.fallIdx || b.riseIdx < a.lowestRightIdx < b.fallIdx
    || a.riseIdx < b.lowestLeftIdx < a.fallIdx || a.riseIdx < b.lowestRightIdx < a.fallIdx
  }

  /**
   * A peak that splits the other one stays, the first of them if both do. If neither does, the one
   * that contains the other stays, the second of them if both do. If neither does that but they
   * overlap, it is the one with the larger SNR, the first of them if they are equal.
   */
  lemma WhoStays(a: Peak, b: Peak)
    ensures Splits(a, b) ==> IsBetterThan(a, b) > 0
    ensures Splits(b, a) && !Splits(a, b) ==> IsBetterThan(a, b) < 0
    ensures !Splits(a, b) && !Splits(b, a) && Contained(a, b) ==> IsBetterThan(a, b) < 0
    ensures !Splits(a, b) && !Splits(b, a) && Contained(b, a) && !Contained(a, b) ==> IsBetterThan(a, b) > 0
    ensures !Splits(a, b) && !Splits(b, a) && !Contained(a, b) && !Contained(b, a) && Overlap(a, b) ==>
              if a.meanSnr >= b.meanSnr then IsBetterThan(a, b) > 0 else IsBetterThan(a, b) < 0
    ensures !Splits(a, b) && !Splits(b, a) && !Contained(a, b) && !Contained(b, a) && !Overlap(a, b) ==>
              IsBetterThan(a, b) == 0
  {
  }

  /** The peak kept so far stays, the candidate does not. */
  predicate Defends(kept: Peak, cand: Peak) {
    || Splits(kept, cand)
    || (!Splits(cand, kept) && !Contained(kept, cand)
        && (Contained(cand, kept) || (Overlap(kept, cand) && kept.meanSnr >= cand.meanSnr)))
  }

  /** The candidate stays, the peak kept so far does not. */
  predicate GivesWay(kept: Peak, cand: Peak) {
    && !Splits(kept, cand)
    && (|| Splits(cand, kept) || Contained(kept, cand)
        || (!Contained(cand, kept) && Overlap(kept, cand) && kept.meanSnr < cand.meanSnr))
  }

  lemma StaysOrGoes(kept: Peak, cand: Peak)
    ensures IsBetterThan(kept, cand) > 0 <==> Defends(kept, cand)
    ensures IsBetterThan(kept, cand) < 0 <==> GivesWay(kept, cand)
  {
    hide IsBetterThan;
    WhoStays(kept, cand);
  }

  /**
   * Which of two peaks stays depends on which of them is met first exactly when both split the other,
   * or neither does and they have the same extent, or overlap with the same SNR.
   */
  lemma OrderMattersExactlyWhen(a: Peak, b: Peak)
    ensures IsBetterThan(a, b) != -IsBetterThan(b, a) <==>
              || (Splits(a, b) && Splits(b, a))
              || (!Splits(a, b) && !Splits(b, a) && Contained(a, b) && Contained(b, a))
              || (!Splits(a, b) && !Splits(b, a) && !Contained(a, b) && !Contained(b, a) && Overlap(a, b) && a.meanSnr == b.meanSnr)
  {
    hide IsBetterThan;
    WhoStays(a, b);
    WhoStays(b, a);
    Values(a, b);
    Values(b, a);
  }

  lemma Values(a: Peak, b: Peak)
    ensures IsBetterThan(a, b) in {-1, 0, 1}
  {
  }

  /** The counting form the source has. */
  method CompareByCounting(a: Peak, b: Peak) returns (r: int)
    ensures r == IsBetterThan(a, b)
    ensures r > 0 <==> Defends(a, b)
    ensures r < 0 <==> GivesWay(a, b)
  {
    StaysOrGoes(a, b);
    var aInBCount, bInACount := 0, 0;
    if a.lowestLeftIdx > b.riseIdx && a.lowestLeftIdx < b.fallIdx {
      aInBCount := aInBCount + 1;
      if b.meanLevel - a.lowestLeftLevel >= b.fluctuation * 8 { return 1; }
    }
    if a.lowestRightIdx > b.riseIdx && a.lowestRightIdx < b.fallIdx {
      aInBCount := aInBCount + 1;
      if b.meanLevel - a.lowestRightLevel >= b.fluctuation * 8 { return 1; }
    }
    if IsPartOf(a, b) { return -1; }
    if b.lowestLeftIdx > a.riseIdx && b.lowestLeftIdx < a.fallIdx {
      bInACount := bInACount + 1;
      if a.meanLevel - b.lowestLeftLevel >= a.fluctuation * 8 { return -1; }
    }
    if b.lowestRightIdx > a.riseIdx && b.lowestRightIdx < a.fallIdx {
      bInACount := bInACount + 1;
      if a.meanLevel - b.lowestRightLevel >= a.fluctuation * 8 { return -1; }
    }
    if IsPartOf(b, a) { return 1; }
    if aInBCount == 0 && bInACount == 0 { return 0; }
    r := if a.meanSnr >= b.meanSnr then 1 else -1;
  }

  // ---------------------------------------------------------------------------------------------
  // What a candidate does to the list
  // ---------------------------------------------------------------------------------------------

  /** The peaks up to the first one that beats the candidate, without those it beats; then the rest. */
  function Left(peaks: seq<Peak>, cand: Peak): seq<Peak> {
    if peaks == [] then []
    else if IsBetterThan(peaks[0], cand) > 0 then peaks
    else if IsBetterThan(peaks[0], cand) < 0 then Left(peaks[1..], cand)
    else [peaks[0]] + Left(peaks[1..], cand)
  }

  /** Some peak of the list beats the candidate. */
  predicate Beaten(peaks: seq<Peak>, cand: Peak) {
    exists i :: 0 <= i < |peaks| && IsBetterThan(peaks[i], cand) > 0
  }

  predicate Strong(cand: Peak, threshold: int, threshold2: int) {
    cand.meanSnr >= threshold2 && cand.dipSnr > threshold
  }

  /** Peaks that are pairwise without conflict. */
  predicate Clear(peaks: seq<Peak>) {
    forall i, j :: 0 <= i < j < |peaks| ==> IsBetterThan(peaks[i], peaks[j]) == 0
  }

  predicate ClearOf(peaks: seq<Peak>, cand: Peak) {
    forall i :: 0 <= i < |peaks| ==> IsBetterThan(peaks[i], cand) == 0
  }

  function AfterCandidate(peaks: seq<Peak>, cand: Peak, threshold: int, threshold2: int): seq<Peak> {
    if !Strong(cand, threshold, threshold2) then peaks
    else Left(peaks, cand) + if Beaten(peaks, cand) then [] else [cand]
  }

  /** What stays are peaks of the list, in its order; unless one of them wins, none is in conflict with the candidate. */
  lemma {:induction false} LeftIsClear(peaks: seq<Peak>, cand: Peak)
    requires Clear(peaks)
    ensures Clear(Left(peaks, cand)) && |Left(peaks, cand)| <= |peaks|
    ensures forall p :: p in Left(peaks, cand) ==> p in peaks
    ensures !Beaten(peaks, cand) ==> ClearOf(Left(peaks, cand), cand)
    ensures !Beaten(peaks, cand) ==> forall p :: p in peaks && IsBetterThan(p, cand) == 0 ==> p in Left(peaks, cand)
    ensures Beaten(peaks, cand) ==> exists p :: p in Left(peaks, cand) && IsBetterThan(p, cand) > 0
  {
    hide IsBetterThan;
    if peaks != [] {
      var rest := peaks[1..];
      LeftIsClear(rest, cand);
      if IsBetterThan(peaks[0], cand) > 0 {
        assert peaks[0] in Left(peaks, cand);
      } else {
        assert Beaten(peaks, cand) <==> Beaten(rest, cand) by {
          if i :| 0 <= i < |peaks| && IsBetterThan(peaks[i], cand) > 0 { assert rest[i - 1] == peaks[i]; }
          if i :| 0 <= i < |rest| && IsBetterThan(rest[i], cand) > 0 { assert peaks[i + 1] == rest[i]; }
        }
        assert forall p :: p in rest ==> IsBetterThan(peaks[0], p) == 0;
      }
    }
  }

  /**
   * By the rules: the candidate is refused exactly when some peak stays against it, which is then
   * still there, and only peaks that give way are removed, all of them unless it is refused.
   */
  lemma ByTheRules(peaks: seq<Peak>, cand: Peak)
    ensures Beaten(peaks, cand) <==> exists p :: p in peaks && Defends(p, cand)
    ensures Beaten(peaks, cand) <==> exists p :: p in Left(peaks, cand) && Defends(p, cand)
    ensures forall p :: p in Left(peaks, cand) ==> p in peaks
    ensures forall p :: p in peaks && p !in Left(peaks, cand) ==> GivesWay(p, cand)
    ensures !Beaten(peaks, cand) ==> forall p :: p in peaks && GivesWay(p, cand) ==> p !in Left(peaks, cand)
  {
    hide IsBetterThan, Defends, GivesWay, Left, Beaten;
    OnlyLosersGo(peaks, cand);
    forall p ensures (IsBetterThan(p, cand) > 0 <==> Defends(p, cand)) && (IsBetterThan(p, cand) < 0 <==> GivesWay(p, cand)) {
      StaysOrGoes(p, cand);
    }
  }

  lemma {:induction false} OnlyLosersGo(peaks: seq<Peak>, cand: Peak)
    ensures Beaten(peaks, cand) <==> exists p :: p in peaks && IsBetterThan(p, cand) > 0
    ensures Beaten(peaks, cand) <==> exists p :: p in Left(peaks, cand) && IsBetterThan(p, cand) > 0
    ensures forall p :: p in Left(peaks, cand) ==> p in peaks
    ensures forall p :: p in peaks && p !in Left(peaks, cand) ==> IsBetterThan(p, cand) < 0
    ensures !Beaten(peaks, cand) ==> forall p :: p in Left(peaks, cand) ==> IsBetterThan(p, cand) == 0
  {
    hide IsBetterThan;
    if peaks != [] {
      var rest := peaks[1..];
      OnlyLosersGo(rest, cand);
      assert forall p :: p in peaks <==> p == peaks[0] || p in rest;
    }
  }

  /** Whatever the candidate, the list stays free of conflicts. */
  lemma StaysClear(peaks: seq<Peak>, cand: Peak, threshold: int, threshold2: int)
    requires Clear(peaks)
    ensures Clear(AfterCandidate(peaks, cand, threshold, threshold2))
    ensures |AfterCandidate(peaks, cand, threshold, threshold2)| <= |peaks| + 1
  {
    LeftIsClear(peaks, cand);
  }

  function AfterCandidates(peaks: seq<Peak>, cands: seq<Peak>, threshold: int, threshold2: int): seq<Peak>
    decreases |cands|
  {
    if cands == [] then peaks
    else AfterCandidates(AfterCandidate(peaks, cands[0], threshold, threshold2), cands[1..], threshold, threshold2)
  }

  // ---------------------------------------------------------------------------------------------
  // The list itself
  // ---------------------------------------------------------------------------------------------

  class ScanInternal {
    const peaks: array<Peak>
    var numPeaks: nat

    ghost predicate Valid()
      reads this, peaks
    {
      numPeaks <= peaks.Length
    }

    ghost function List(): seq<Peak>
      requires Valid()
      reads this, peaks
    {
      peaks[..numPeaks]
    }

    constructor (maxNumPeaks: nat, none: Peak)
      ensures Valid() && List() == [] && peaks.Length == maxNumPeaks && fresh(peaks)
    {
      peaks := new Peak[maxNumPeaks](_ => none);
      numPeaks := 0;
    }

    /** The memmove that closes the gap of a deleted peak. */
    method Delete(i: nat)
      requires Valid() && i < numPeaks
      modifies `numPeaks, peaks
      ensures Valid() && numPeaks == old(numPeaks) - 1 && List() == old(List()[..i]) + old(List()[i + 1..])
    {
      forall k | i <= k < numPeaks - 1 { peaks[k] := peaks[k + 1]; }
      numPeaks := numPeaks - 1;
    }

    /** check_candidate_tp */
    method CheckCandidateTp(cand: Peak, threshold: int, threshold2: int) returns (ret: int)
      requires Valid()
      modifies `numPeaks, peaks
      ensures Valid()
      ensures ret == 0 <==> cand.meanSnr >= threshold2 && cand.dipSnr > threshold && !exists p :: p in List() && Defends(p, cand)
      ensures forall p :: p in old(List()) && p !in List() ==> GivesWay(p, cand)
      ensures ret == 0 ==> forall p :: p in old(List()) ==> (p in List() <==> !GivesWay(p, cand))
      ensures ret == if Strong(cand, threshold, threshold2) && !Beaten(old(List()), cand) then 0 else -1
      ensures List() == if Strong(cand, threshold, threshold2) then Left(old(List()), cand) else old(List())
    {
      hide IsBetterThan, Left, Beaten, Defends, GivesWay;
      if cand.meanSnr < threshold2 { return -1; }
      if cand.dipSnr <= threshold { return -1; }
      ByTheRules(List(), cand);
      ret := CompareWithAll(cand);
    }

    /** The loop of it. */
    method CompareWithAll(cand: Peak) returns (ret: int)
      requires Valid()
      modifies `numPeaks, peaks
      ensures Valid() && List() == Left(old(List()), cand) && ret == if Beaten(old(List()), cand) then -1 else 0
    {
      hide IsBetterThan, Left, Beaten, Walked, Defends, GivesWay;
      var i := 0;
      ghost var was := List();
      WalkStarts(was, cand);
      while i < numPeaks
        invariant Valid() && 0 <= i <= numPeaks && Walked(was, cand, List(), i)
        decreases numPeaks - i
      {
        ghost var now := List();
        WalkGoesOn(was, cand, now, i);
        var oldIsBetter := CompareByCounting(peaks[i], cand);
        if oldIsBetter == 0 {
          i := i + 1;
        } else if oldIsBetter > 0 {
          return -1;
        } else {
          Delete(i);
        }
      }
      WalkEnds(was, cand, List());
      ret := 0;
    }

    /**
     * A candidate of scan_level: added to the list if it passes. The store lies `inside` the list
     * exactly when there is room for what it makes of it; `full` ends the level.
     */
    method ProcessCandidate(cand: Peak, threshold: int, threshold2: int) returns (full: bool, inside: bool)
      requires Valid() && Clear(List())
      modifies `numPeaks, peaks
      ensures Valid() && Clear(List())
      ensures inside <==> |AfterCandidate(old(List()), cand, threshold, threshold2)| <= peaks.Length
      ensures inside ==> List() == AfterCandidate(old(List()), cand, threshold, threshold2)
      ensures !inside ==> List() == old(List())
      ensures full <==> inside && Accepted(old(List()), cand, threshold, threshold2) && numPeaks == peaks.Length
    {
      hide IsBetterThan, Left, Beaten, Clear;
      StaysClear(List(), cand, threshold, threshold2);
      LeftIsClear(List(), cand);
      SameWhenAllLeft(List(), cand);
      var ret := CheckCandidateTp(cand, threshold, threshold2);
      full, inside := false, true;
      if ret >= 0 {
        inside := numPeaks < peaks.Length;
        if inside {
          ghost var now := List();
          peaks[numPeaks] := cand;
          numPeaks := numPeaks + 1;
          assert List() == now + [cand];
          full := numPeaks >= peaks.Length;
        }
      } else {
        assert List() + [] == List();
      }
    }

    /** The candidates of one scan_level, up to the one that fills the list, or would be stored behind it. */
    method ScanLevel(cands: seq<Peak>, threshold: int, threshold2: int) returns (full: bool, inside: bool, done: nat)
      requires Valid() && Clear(List())
      modifies `numPeaks, peaks
      ensures Valid() && Clear(List())
      ensures AfterLevel(old(List()), cands, peaks.Length, threshold, threshold2) == Outcome(List(), full, inside)
      ensures done <= |cands| && (!full && inside ==> done == |cands|)
      ensures List() == AfterCandidates(old(List()), cands[..done], threshold, threshold2)
    {
      hide Clear, AfterCandidate, AfterCandidates, AfterLevel, Accepted;
      full, inside, done := false, true, 0;
      ghost var was := List();
      NoCandidates(was, cands, threshold, threshold2);
      assert cands[0..] == cands;
      while done < |cands|
        invariant Valid() && Clear(List()) && inside && !full
        invariant done <= |cands| && List() == AfterCandidates(was, cands[..done], threshold, threshold2)
        invariant AfterLevel(was, cands, peaks.Length, threshold, threshold2)
               == AfterLevel(List(), cands[done..], peaks.Length, threshold, threshold2)
        decreases |cands| - done
      {
        OneMoreCandidate(was, cands, done, threshold, threshold2);
        LevelStep(List(), cands[done..], peaks.Length, threshold, threshold2);
        assert cands[done..][1..] == cands[done + 1..];
        full, inside := ProcessCandidate(cands[done], threshold, threshold2);
        if !inside { return; }
        done := done + 1;
        if full { return; }
      }
      LevelStep(List(), cands[done..], peaks.Length, threshold, threshold2);
    }

    /** scan_all goes on with the next level whatever the last one returned. */
    method ScanAll(levels: seq<seq<Peak>>, threshold: int, threshold2: int) returns (inside: bool)
      requires Valid() && Clear(List())
      modifies `numPeaks, peaks
      ensures Valid() && Clear(List())
      ensures inside == StaysInside(old(List()), levels, peaks.Length, threshold, threshold2)
    {
      hide Clear, AfterLevel;
      inside := true;
      assert levels[0..] == levels;
      for i := 0 to |levels|
        invariant Valid() && Clear(List()) && inside
        invariant StaysInside(old(List()), levels, peaks.Length, threshold, threshold2)
               == StaysInside(List(), levels[i..], peaks.Length, threshold, threshold2)
      {
        var full, done;
        assert levels[i..][1..] == levels[i + 1..];
        full, inside, done := ScanLevel(levels[i], threshold, threshold2);
        if !inside { return; }
      }
    }
  }

  predicate Accepted(peaks: seq<Peak>, cand: Peak, threshold: int, threshold2: int) {
    Strong(cand, threshold, threshold2) && !Beaten(peaks, cand)
  }

  /** What a level makes of the list, whether it ends because that is full, and whether it stays inside. */
  datatype Outcome = Outcome(peaks: seq<Peak>, full: bool, inside: bool)

  function AfterLevel(peaks: seq<Peak>, cands: seq<Peak>, capacity: nat, threshold: int, threshold2: int): Outcome
    decreases |cands|
  {
    if cands == [] then Outcome(peaks, false, true)
    else
      var next := AfterCandidate(peaks, cands[0], threshold, threshold2);
      if |next| > capacity then Outcome(peaks, false, false)
      else if Accepted(peaks, cands[0], threshold, threshold2) && |next| == capacity then Outcome(next, true, true)
      else AfterLevel(next, cands[1..], capacity, threshold, threshold2)
  }

  lemma LevelStep(peaks: seq<Peak>, cands: seq<Peak>, capacity: nat, threshold: int, threshold2: int)
    ensures cands == [] ==> AfterLevel(peaks, cands, capacity, threshold, threshold2) == Outcome(peaks, false, true)
    ensures cands != [] ==>
              var next := AfterCandidate(peaks, cands[0], threshold, threshold2);
              AfterLevel(peaks, cands, capacity, threshold, threshold2)
              == if |next| > capacity then Outcome(peaks, false, false)
                 else if Accepted(peaks, cands[0], threshold, threshold2) && |next| == capacity then Outcome(next, true, true)
                 else AfterLevel(next, cands[1..], capacity, threshold, threshold2)
  {
  }

  function StaysInside(peaks: seq<Peak>, levels: seq<seq<Peak>>, capacity: nat, threshold: int, threshold2: int): bool
    decreases |levels|
  {
    levels == [] ||
    var first := AfterLevel(peaks, levels[0], capacity, threshold, threshold2);
    first.inside && StaysInside(first.peaks, levels[1..], capacity, threshold, threshold2)
  }

  /** Peaks that all stay are the list as it was. */
  lemma {:induction false} SameWhenAllLeft(peaks: seq<Peak>, cand: Peak)
    ensures |Left(peaks, cand)| <= |peaks| && (|Left(peaks, cand)| == |peaks| ==> Left(peaks, cand) == peaks)
  {
    hide IsBetterThan;
    if peaks != [] {
      SameWhenAllLeft(peaks[1..], cand);
      assert peaks == [peaks[0]] + peaks[1..];
    }
  }

  /** A level that begins with room in the list stays inside it. */
  lemma {:induction false} RoomIsEnough(peaks: seq<Peak>, cands: seq<Peak>, capacity: nat, threshold: int, threshold2: int)
    requires |peaks| < capacity
    ensures AfterLevel(peaks, cands, capacity, threshold, threshold2).inside
    decreases |cands|
  {
    hide Left, Beaten, Strong;
    if cands != [] {
      SameWhenAllLeft(peaks, cands[0]);
      var next := AfterCandidate(peaks, cands[0], threshold, threshold2);
      if |next| < capacity { RoomIsEnough(next, cands[1..], capacity, threshold, threshold2); }
    }
  }

  /** The first of these candidates that does anything to a full list is accepted, and removes nothing. */
  predicate Overfills(peaks: seq<Peak>, cands: seq<Peak>, i: int, threshold: int, threshold2: int) {
    && 0 <= i < |cands|
    && (forall j :: 0 <= j < i ==> AfterCandidate(peaks, cands[j], threshold, threshold2) == peaks)
    && (forall j :: 0 <= j < i ==> !Accepted(peaks, cands[j], threshold, threshold2))
    && Accepted(peaks, cands[i], threshold, threshold2) && Left(peaks, cands[i]) == peaks
  }

  /** One that begins with a full list does so exactly when no candidate overfills it. */
  lemma {:induction false} FullLevelStaysInsideExactlyWhen(peaks: seq<Peak>, cands: seq<Peak>, capacity: nat, threshold: int, threshold2: int)
    requires |peaks| == capacity
    ensures AfterLevel(peaks, cands, capacity, threshold, threshold2).inside
            <==> !exists i :: Overfills(peaks, cands, i, threshold, threshold2)
    decreases |cands|
  {
    hide Left, Beaten, Strong, AfterLevel;
    LevelStep(peaks, cands, capacity, threshold, threshold2);
    if cands != [] {
      var c, rest := cands[0], cands[1..];
      SameWhenAllLeft(peaks, c);
      var next := AfterCandidate(peaks, c, threshold, threshold2);
      if |next| > capacity {
        assert Overfills(peaks, cands, 0, threshold, threshold2);
      } else if Accepted(peaks, c, threshold, threshold2) {
        if |next| < capacity { RoomIsEnough(next, rest, capacity, threshold, threshold2); }
        forall i ensures !Overfills(peaks, cands, i, threshold, threshold2) {
        }
      } else if |next| < capacity {
        RoomIsEnough(next, rest, capacity, threshold, threshold2);
        forall i ensures !Overfills(peaks, cands, i, threshold, threshold2) {
        }
      } else {
        assert next == peaks by { assert Left(peaks, c) + [] == Left(peaks, c); }
        FullLevelStaysInsideExactlyWhen(peaks, rest, capacity, threshold, threshold2);
        forall i ensures Overfills(peaks, cands, i, threshold, threshold2) <==> Overfills(peaks, rest, i - 1, threshold, threshold2) {
          if Overfills(peaks, rest, i - 1, threshold, threshold2) {
            forall j | 0 <= j < i
              ensures AfterCandidate(peaks, cands[j], threshold, threshold2) == peaks && !Accepted(peaks, cands[j], threshold, threshold2)
            {
              if j > 0 { assert cands[j] == rest[j - 1]; }
            }
          }
          if Overfills(peaks, cands, i, threshold, threshold2) {
            assert i != 0;
            forall j | 0 <= j < i - 1
              ensures AfterCandidate(peaks, rest[j], threshold, threshold2) == peaks && !Accepted(peaks, rest[j], threshold, threshold2)
            {
              assert rest[j] == cands[j + 1];
            }
          }
        }
        if i :| Overfills(peaks, rest, i, threshold, threshold2) {
          assert Overfills(peaks, cands, i + 1, threshold, threshold2) <==> Overfills(peaks, rest, i + 1 - 1, threshold, threshold2);
        }
      }
    }
  }

  lemma NoCandidates(peaks: seq<Peak>, cands: seq<Peak>, threshold: int, threshold2: int)
    ensures AfterCandidates(peaks, cands[..0], threshold, threshold2) == peaks
  {
  }

  lemma OneMoreCandidate(peaks: seq<Peak>, cands: seq<Peak>, n: nat, threshold: int, threshold2: int)
    requires n < |cands|
    ensures AfterCandidates(peaks, cands[..n + 1], threshold, threshold2)
            == AfterCandidate(AfterCandidates(peaks, cands[..n], threshold, threshold2), cands[n], threshold, threshold2)
  {
    AfterLast(peaks, cands[..n + 1], threshold, threshold2);
    assert cands[..n + 1][..n] == cands[..n];
  }

  lemma {:induction false} AfterLast(peaks: seq<Peak>, cands: seq<Peak>, threshold: int, threshold2: int)
    requires cands != []
    ensures var n := |cands| - 1;
            AfterCandidates(peaks, cands, threshold, threshold2)
            == AfterCandidate(AfterCandidates(peaks, cands[..n], threshold, threshold2), cands[n], threshold, threshold2)
    decreases |cands|
  {
    hide AfterCandidate;
    var n := |cands| - 1;
    if n > 0 {
      AfterLast(AfterCandidate(peaks, cands[0], threshold, threshold2), cands[1..], threshold, threshold2);
      assert cands[1..][..n - 1] == cands[..n][1..];
    }
  }

  /** The first `i` peaks of what is left of the list have been looked at. */
  ghost predicate Walked(was: seq<Peak>, cand: Peak, now: seq<Peak>, i: nat) {
    i <= |now| && Left(was, cand) == now[..i] + Left(now[i..], cand) && Beaten(was, cand) == Beaten(now[i..], cand)
  }

  lemma WalkStarts(was: seq<Peak>, cand: Peak)
    ensures Walked(was, cand, was, 0)
  {
    hide Left, Beaten;
    assert was[0..] == was && was[..0] == [] && [] + Left(was, cand) == Left(was, cand);
  }

  lemma WalkGoesOn(was: seq<Peak>, cand: Peak, now: seq<Peak>, i: nat)
    requires Walked(was, cand, now, i) && i < |now|
    ensures IsBetterThan(now[i], cand) == 0 ==> Walked(was, cand, now, i + 1)
    ensures IsBetterThan(now[i], cand) > 0 ==> Left(was, cand) == now && Beaten(was, cand)
    ensures IsBetterThan(now[i], cand) < 0 ==> Walked(was, cand, now[..i] + now[i + 1..], i)
  {
    hide Left, Beaten, IsBetterThan;
    LeftStep(now[i..], cand);
    assert now[i..][1..] == now[i + 1..];
    var shorter := now[..i] + now[i + 1..];
    assert shorter[..i] == now[..i] && shorter[i..] == now[i + 1..];
    assert now[..i + 1] == now[..i] + [now[i]];
    assert now[..i] + now[i..] == now;
  }

  lemma WalkEnds(was: seq<Peak>, cand: Peak, now: seq<Peak>)
    requires Walked(was, cand, now, |now|)
    ensures Left(was, cand) == now && !Beaten(was, cand)
  {
    hide Left, Beaten;
    LeftStep([], cand);
    assert now[|now|..] == [] && now[..|now|] + [] == now;
  }

  lemma LeftStep(peaks: seq<Peak>, cand: Peak)
    ensures peaks == [] ==> Left(peaks, cand) == [] && !Beaten(peaks, cand)
    ensures peaks != [] && IsBetterThan(peaks[0], cand) > 0 ==> Left(peaks, cand) == peaks && Beaten(peaks, cand)
    ensures peaks != [] && IsBetterThan(peaks[0], cand) == 0 ==> Left(peaks, cand) == [peaks[0]] + Left(peaks[1..], cand)
    ensures peaks != [] && IsBetterThan(peaks[0], cand) < 0 ==> Left(peaks, cand) == Left(peaks[1..], cand)
    ensures peaks != [] && IsBetterThan(peaks[0], cand) <= 0 ==> Beaten(peaks, cand) == Beaten(peaks[1..], cand)
  {
    hide IsBetterThan;
    if peaks != [] && IsBetterThan(peaks[0], cand) <= 0 {
      var rest := peaks[1..];
      if i :| 0 <= i < |peaks| && IsBetterThan(peaks[i], cand) > 0 { assert rest[i - 1] == peaks[i]; }
      if i :| 0 <= i < |rest| && IsBetterThan(rest[i], cand) > 0 { assert peaks[i + 1] == rest[i]; }
    }
  }
}
