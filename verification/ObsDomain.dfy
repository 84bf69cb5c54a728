/** Work-domain tiling: ObsDomain::getNextWorkDomain as used by MasterControl::processSteps.
    Doubles are modelled as reals. */
module ObsDomains {
  import opened Options

  /** The four boundaries of an observation domain, as a value (what is put in a message). */
  datatype Box = Box(startFreq: real, endFreq: real, startTime: real, endTime: real)

  datatype Shape = Shape(freqSize: real, timeSize: real)

  /** The default-constructed domain: its negative start frequency means "no domain yet". */
  const ALL := Box(-1.0, 1.0e30, -1.0, 1.0e30)

  function Min(a: real, b: real): real { if b < a then b else a }

  ghost predicate Contains(b: Box, f: real, t: real) {
    b.startFreq <= f < b.endFreq && b.startTime <= t < b.endTime
  }

  /** The first work domain of the full domain. */
  function First(full: Box, sh: Shape): Box {
    Box(full.startFreq, Min(full.endFreq, full.startFreq + sh.freqSize),
        full.startTime, Min(full.endTime, full.startTime + sh.timeSize))
  }

  /** The work domain following wd, or None when there is none. */
  function Next(full: Box, sh: Shape, wd: Box): Option<Box> {
    var f := wd.startFreq + sh.freqSize;
    var t := wd.startTime + sh.timeSize;
    if wd.startFreq < 0.0 then
      Some(First(full, sh))
    else if f < full.endFreq then
      Some(wd.(startFreq := f, endFreq := Min(full.endFreq, f + sh.freqSize)))
    else if t < full.endTime then
      Some(First(full, sh).(startTime := t, endTime := Min(full.endTime, t + sh.timeSize)))
    else
      None
  }

  class ObsDomain {
    var startFreq: real
    var endFreq: real
    var startTime: real
    var endTime: real

    ghost function View(): Box
      reads this
    {
      Box(startFreq, endFreq, startTime, endTime)
    }

    constructor ()
      ensures View() == ALL
    {
      startFreq, endFreq, startTime, endTime := -1.0, 1.0e30, -1.0, 1.0e30;
    }

    /** The constructor that makes the first work domain. */
    constructor FirstOf(full: ObsDomain, sh: Shape)
      ensures View() == First(full.View(), sh)
    {
      startFreq := full.startFreq;
      endFreq := Min(full.endFreq, full.startFreq + sh.freqSize);
      startTime := full.startTime;
      endTime := Min(full.endTime, full.startTime + sh.timeSize);
    }

    method SetFreq(s: real, e: real)
      modifies this
      ensures View() == old(View()).(startFreq := s, endFreq := e)
    {
      startFreq, endFreq := s, e;
    }

    method SetTime(s: real, e: real)
      modifies this
      ensures View() == old(View()).(startTime := s, endTime := e)
    {
      startTime, endTime := s, e;
    }

    method Assign(that: ObsDomain)
      modifies this
      ensures View() == old(that.View())
    {
      startFreq, endFreq, startTime, endTime := that.startFreq, that.endFreq, that.startTime, that.endTime;
    }

    method GetNextWorkDomain(workDomain: ObsDomain, sh: Shape) returns (more: bool)
      requires workDomain != this
      modifies workDomain
      ensures more == Next(View(), sh, old(workDomain.View())).Some?
      ensures workDomain.View() == if more then Next(View(), sh, old(workDomain.View())).value
                                   else old(workDomain.View())
    {
      var freqLen, timeLen := sh.freqSize, sh.timeSize;
      if workDomain.startFreq < 0.0 {
        workDomain.SetFreq(startFreq, Min(endFreq, startFreq + freqLen));
        workDomain.SetTime(startTime, Min(endTime, startTime + timeLen));
        return true;
      }
      var sfreq := workDomain.startFreq + freqLen;
      if sfreq < endFreq {
        workDomain.SetFreq(sfreq, Min(endFreq, sfreq + freqLen));
        return true;
      }
      var stime := workDomain.startTime + timeLen;
      if stime < endTime {
        var first := new ObsDomain.FirstOf(this, sh);
        workDomain.Assign(first);
        workDomain.SetTime(stime, Min(endTime, stime + timeLen));
        return true;
      }
      return false;
    }
  }

  // ---------------------------------------------------------------- termination

  /** What MasterControl needs of the full domain and the work-domain shape. */
  ghost predicate Usable(full: Box, sh: Shape) {
    full.startFreq >= 0.0 && sh.freqSize > 0.0 && sh.timeSize > 0.0
  }

  /** An upper bound of the number of further steps of length len within a remaining extent. */
  ghost function Steps(extent: real, len: real): nat
    requires len > 0.0
  {
    if extent <= 0.0 then 0 else DivPositive(extent, len); (extent / len).Floor + 1
  }

  lemma DivPositive(x: real, len: real)
    requires x > 0.0 && len > 0.0
    ensures x / len > 0.0
  {
  }

  lemma MulPositive(x: real, len: real)
    requires x > 0.0 && len > 0.0
    ensures x * len > 0.0
  {
  }

  lemma DivShift(x: real, len: real)
    requires len > 0.0
    ensures (x - len) / len == x / len - 1.0
  {
    var q, r := x / len, (x - len) / len;
    assert q * len == x && r * len == x - len;
    var d := q - 1.0 - r;
    assert d * len == 0.0;
    assert d == 0.0 by {
      if d > 0.0 { MulPositive(d, len); }
      if d < 0.0 { MulPositive(-d, len); }
    }
  }

  lemma StepsDecrease(extent: real, len: real)
    requires len > 0.0 && extent > 0.0
    ensures Steps(extent - len, len) < Steps(extent, len)
  {
    DivPositive(extent, len);
    if extent - len > 0.0 {
      DivPositive(extent - len, len);
      DivShift(extent, len);
    }
  }

  /** Lexicographic variant: started yet, time steps left, frequency steps left. */
  ghost function TimeLeft(full: Box, sh: Shape, wd: Box): nat
    requires Usable(full, sh)
  {
    if wd.startFreq < 0.0 then 1 + Steps(full.endTime - full.startTime, sh.timeSize)
    else Steps(full.endTime - wd.startTime - sh.timeSize, sh.timeSize)
  }

  ghost function FreqLeft(full: Box, sh: Shape, wd: Box): nat
    requires Usable(full, sh)
  {
    Steps(full.endFreq - wd.startFreq - sh.freqSize, sh.freqSize)
  }

  lemma NextDecreases(full: Box, sh: Shape, wd: Box)
    requires Usable(full, sh) && Next(full, sh, wd).Some?
    ensures var n := Next(full, sh, wd).value;
      n.startFreq >= 0.0 &&
      (TimeLeft(full, sh, n) < TimeLeft(full, sh, wd) ||
       (TimeLeft(full, sh, n) == TimeLeft(full, sh, wd) && FreqLeft(full, sh, n) < FreqLeft(full, sh, wd)))
  {
    var n := Next(full, sh, wd).value;
    if wd.startFreq < 0.0 {
      if full.endTime - full.startTime > 0.0 {
        StepsDecrease(full.endTime - full.startTime, sh.timeSize);
      }
    } else if n.startTime == wd.startTime && n.startFreq == wd.startFreq + sh.freqSize {
      StepsDecrease(full.endFreq - wd.startFreq - sh.freqSize, sh.freqSize);
    } else {
      StepsDecrease(full.endTime - wd.startTime - sh.timeSize, sh.timeSize);
    }
  }

  /** All work domains that follow wd, in the order getNextWorkDomain gives them. */
  ghost function Tiles(full: Box, sh: Shape, wd: Box): seq<Box>
    requires Usable(full, sh)
    decreases TimeLeft(full, sh, wd), FreqLeft(full, sh, wd)
  {
    match Next(full, sh, wd)
    case None => []
    case Some(n) =>
      NextDecreases(full, sh, wd);
      [n] + Tiles(full, sh, n)
  }

  // ---------------------------------------------------------------- partition

  /** The number of tiles that contain the point. */
  ghost function Hits(tiles: seq<Box>, f: real, t: real): nat {
    if tiles == [] then 0 else (if Contains(tiles[0], f, t) then 1 else 0) + Hits(tiles[1..], f, t)
  }

  /** The part of the full domain that is still to come after wd. */
  ghost predicate Ahead(full: Box, sh: Shape, wd: Box, f: real, t: real) {
    Contains(full, f, t) &&
    (wd.startFreq < 0.0 ||
     (wd.startTime <= t < wd.startTime + sh.timeSize && wd.startFreq + sh.freqSize <= f) ||
     wd.startTime + sh.timeSize <= t)
  }

  /** What every work domain after the first call satisfies. */
  ghost predicate Proper(full: Box, sh: Shape, wd: Box) {
    wd.startFreq >= full.startFreq && wd.startTime >= full.startTime &&
    wd.endFreq == Min(full.endFreq, wd.startFreq + sh.freqSize) &&
    wd.endTime == Min(full.endTime, wd.startTime + sh.timeSize)
  }

  lemma {:induction false} HitsAhead(full: Box, sh: Shape, wd: Box, f: real, t: real)
    requires Usable(full, sh)
    requires wd.startFreq < 0.0 || Proper(full, sh, wd)
    ensures Hits(Tiles(full, sh, wd), f, t) == if Ahead(full, sh, wd, f, t) then 1 else 0
    decreases TimeLeft(full, sh, wd), FreqLeft(full, sh, wd)
  {
    match Next(full, sh, wd)
    case None =>
    case Some(n) =>
      NextDecreases(full, sh, wd);
      HitsAhead(full, sh, n, f, t);
      assert ([n] + Tiles(full, sh, n))[1..] == Tiles(full, sh, n);
      assert (if Contains(n, f, t) then 1 else 0) + (if Ahead(full, sh, n, f, t) then 1 else 0)
          == if Ahead(full, sh, wd, f, t) then 1 else 0;
  }

  /** The work domains of a run partition the full domain: every point inside is in exactly one
      half-open tile, no point outside is in any. */
  lemma TilesPartition(full: Box, sh: Shape, f: real, t: real)
    requires Usable(full, sh)
    ensures Hits(Tiles(full, sh, ALL), f, t) == if Contains(full, f, t) then 1 else 0
  {
    HitsAhead(full, sh, ALL, f, t);
  }

  lemma {:induction false} TilesFrom(full: Box, sh: Shape, wd: Box)
    requires Usable(full, sh)
    requires wd.startFreq < 0.0 || Proper(full, sh, wd)
    ensures forall b :: b in Tiles(full, sh, wd) ==> Proper(full, sh, b)
    decreases TimeLeft(full, sh, wd), FreqLeft(full, sh, wd)
  {
    match Next(full, sh, wd)
    case None =>
    case Some(n) =>
      NextDecreases(full, sh, wd);
      TilesFrom(full, sh, n);
  }

  /** Every work domain lies in the full domain and has the size of the shape, unless it is cut off at the end
      of the full domain. */
  lemma TilesFit(full: Box, sh: Shape)
    requires Usable(full, sh)
    ensures forall b :: b in Tiles(full, sh, ALL) ==>
      && full.startFreq <= b.startFreq && b.endFreq <= full.endFreq && b.endFreq - b.startFreq <= sh.freqSize
      && full.startTime <= b.startTime && b.endTime <= full.endTime && b.endTime - b.startTime <= sh.timeSize
      && (b.endFreq < full.endFreq ==> b.endFreq - b.startFreq == sh.freqSize)
      && (b.endTime < full.endTime ==> b.endTime - b.startTime == sh.timeSize)
  {
    TilesFrom(full, sh, ALL);
  }

  /** Work domain b comes after a: later, or at the same time with higher frequencies. */
  ghost predicate ComesAfter(a: Box, b: Box) {
    a.startTime < b.startTime || (a.startTime == b.startTime && a.startFreq < b.startFreq)
  }

  lemma {:induction false} TilesAfter(full: Box, sh: Shape, wd: Box)
    requires Usable(full, sh) && Proper(full, sh, wd)
    ensures forall i :: 0 <= i < |Tiles(full, sh, wd)| ==> ComesAfter(wd, Tiles(full, sh, wd)[i])
    ensures forall i, j :: 0 <= i < j < |Tiles(full, sh, wd)| ==>
      ComesAfter(Tiles(full, sh, wd)[i], Tiles(full, sh, wd)[j])
    decreases TimeLeft(full, sh, wd), FreqLeft(full, sh, wd)
  {
    match Next(full, sh, wd)
    case None =>
    case Some(n) =>
      NextDecreases(full, sh, wd);
      TilesAfter(full, sh, n);
      assert Tiles(full, sh, wd) == [n] + Tiles(full, sh, n);
  }

  /** The work domains come in the order of their times, and for one time in the order of their frequencies. */
  lemma {:induction false} TilesInOrder(full: Box, sh: Shape, i: nat, j: nat)
    requires Usable(full, sh) && i < j < |Tiles(full, sh, ALL)|
    ensures var a, b := Tiles(full, sh, ALL)[i], Tiles(full, sh, ALL)[j];
      a.startTime < b.startTime || (a.startTime == b.startTime && a.startFreq < b.startFreq)
  {
    var n := First(full, sh);
    assert Next(full, sh, ALL) == Some(n);
    NextDecreases(full, sh, ALL);
    TilesAfter(full, sh, n);
    assert Tiles(full, sh, ALL) == [n] + Tiles(full, sh, n);
  }

  // ---------------------------------------------------------------- when the iteration ends

  /** The work domain after k successful calls, starting from the default domain. */
  ghost function Iterate(full: Box, sh: Shape, k: nat): Option<Box> {
    if k == 0 then Some(ALL)
    else match Iterate(full, sh, k - 1)
      case None => None
      case Some(wd) => Next(full, sh, wd)
  }

  lemma {:induction false} IterateEnds(full: Box, sh: Shape, k: nat, wd: Box) returns (m: nat)
    requires Usable(full, sh) && Iterate(full, sh, k) == Some(wd)
    ensures Iterate(full, sh, m).None?
    decreases TimeLeft(full, sh, wd), FreqLeft(full, sh, wd)
  {
    match Next(full, sh, wd)
    case None => m := k + 1;
    case Some(n) =>
      NextDecreases(full, sh, wd);
      m := IterateEnds(full, sh, k + 1, n);
  }

  lemma {:induction false} NegativeStartRepeats(full: Box, sh: Shape, k: nat)
    requires full.startFreq < 0.0 && k > 0
    ensures Iterate(full, sh, k) == Some(First(full, sh))
  {
    if k > 1 {
      NegativeStartRepeats(full, sh, k - 1);
    } else {
      assert Iterate(full, sh, 0) == Some(ALL);
    }
  }

  /** For positive sizes the loop over work domains ends exactly when the full domain does not
      start at a negative frequency: with a negative start the first tile comes back for ever. */
  lemma IterationEndsIff(full: Box, sh: Shape)
    requires sh.freqSize > 0.0 && sh.timeSize > 0.0
    ensures (exists k: nat :: Iterate(full, sh, k).None?) <==> full.startFreq >= 0.0
  {
    if full.startFreq >= 0.0 {
      var m := IterateEnds(full, sh, 0, ALL);
    } else {
      forall k: nat ensures Iterate(full, sh, k).Some? {
        if k > 0 { NegativeStartRepeats(full, sh, k); }
      }
    }
  }
}
