/** The virtual columns of the EMBRACE storage manager that cache what they compute. Rows come in blocks:
    all baselines of one time, then those of the next. */
module EmbraceColumns {
  import opened Options

  datatype Vec = Vec(u: real, v: real, w: real)

  const ZERO := Vec(0.0, 0.0, 0.0)

  function Minus(a: Vec, b: Vec): Vec { Vec(a.u - b.u, a.v - b.v, a.w - b.w) }

  /** What the columns need of the storage manager: the antennae of every baseline, the time of a block. */
  datatype Parent = Parent(ant1: seq<nat>, ant2: seq<nat>, time: nat -> real) {
    predicate Valid(nrant: nat) {
      && |ant1| == |ant2| > 0
      && (forall i :: 0 <= i < |ant1| ==> ant1[i] < nrant && ant2[i] < nrant)
    }
  }

  lemma BlockParts(row: nat, n: nat)
    requires n > 0
    ensures row / n * n <= row < row / n * n + n && row - row / n * n == row % n
  {
  }

  // ---------------------------------------------------------------- the UVW column

  /** The UVW coordinates of an antenna in the frame of a time. */
  type Uvw = (nat, real) -> Vec

  class UvwColumn {
    const parent: Parent
    const uvw: Uvw
    const nrant: nat
    const itsCanCalc: bool
    var itsFrame: real
    var itsAntUvw: array<Vec>
    var itsUvwFilled: array<bool>
    var itsLastBlNr: int

    /** The frame is that of the last block seen, and so is every filled entry. */
    ghost predicate Valid()
      reads this, itsAntUvw, itsUvwFilled
    {
      && parent.Valid(nrant) && itsAntUvw.Length == itsUvwFilled.Length == nrant
      && itsLastBlNr >= -1
      && (itsLastBlNr >= 0 ==> itsFrame == parent.time(itsLastBlNr))
      && (forall a :: 0 <= a < nrant && itsUvwFilled[a] ==>
            itsLastBlNr >= 0 && itsAntUvw[a] == uvw(a, parent.time(itsLastBlNr)))
    }

    /** prepareCol; without an ANTENNA table nothing can be calculated. */
    constructor (parent: Parent, uvw: Uvw, nrant: nat, canCalc: bool)
      requires parent.Valid(nrant)
      ensures Valid() && this.parent == parent && this.uvw == uvw && this.nrant == nrant && itsCanCalc == canCalc
      ensures itsLastBlNr == -1 && forall a :: 0 <= a < nrant ==> !itsUvwFilled[a]
      ensures fresh(itsAntUvw) && fresh(itsUvwFilled)
    {
      this.parent, this.uvw, this.nrant, itsCanCalc := parent, uvw, nrant, canCalc;
      itsFrame := 0.0;
      itsLastBlNr := -1;
      itsAntUvw := new Vec[nrant](_ => ZERO);
      itsUvwFilled := new bool[nrant](_ => false);
    }

    /** Whatever rows were asked for before, the value leads from the first antenna of the row's baseline to the
        second, both at the time of the row's block. */
    method GetArraydoubleV(rownr: nat) returns (data: Vec)
      requires Valid()
      modifies this`itsFrame, this`itsLastBlNr, itsAntUvw, itsUvwFilled
      ensures Valid()
      ensures itsCanCalc ==>
        var n := |parent.ant1|;
        var t := parent.time(rownr / n);
        var from, to := uvw(parent.ant1[rownr % n], t), uvw(parent.ant2[rownr % n], t);
        && from.u + data.u == to.u && from.v + data.v == to.v && from.w + data.w == to.w
        && (from == Vec(0.0, 0.0, 0.0) ==> data == to)
      ensures !itsCanCalc ==> data == Vec(0.0, 0.0, 0.0)
    {
      if !itsCanCalc {
        return ZERO;
      }
      var nrbasel := |parent.ant1|;
      var blnr := rownr / nrbasel;
      BlockParts(rownr, nrbasel);
      var antinx := rownr - blnr * nrbasel;
      var ant1, ant2 := parent.ant1[antinx], parent.ant2[antinx];
      if blnr != itsLastBlNr {
        itsLastBlNr := blnr;
        itsFrame := parent.time(blnr);
        ClearFilled();
      }
      Fill(ant1);
      Fill(ant2);
      data := Minus(itsAntUvw[ant2], itsAntUvw[ant1]);
    }

    method ClearFilled()
      modifies itsUvwFilled
      ensures forall a :: 0 <= a < itsUvwFilled.Length ==> !itsUvwFilled[a]
    {
      for a := 0 to itsUvwFilled.Length
        invariant forall b :: 0 <= b < a ==> !itsUvwFilled[b]
      {
        itsUvwFilled[a] := false;
      }
    }

    /** Calculates the UVW of an antenna if that has not been done for this time. */
    method Fill(ant: nat)
      requires Valid() && ant < nrant && itsLastBlNr >= 0
      modifies itsAntUvw, itsUvwFilled
      ensures Valid() && itsUvwFilled[ant]
      ensures forall a :: 0 <= a < nrant && old(itsUvwFilled[a]) ==> itsUvwFilled[a]
    {
      if !itsUvwFilled[ant] {
        itsAntUvw[ant] := uvw(ant, itsFrame);
        itsUvwFilled[ant] := true;
      }
    }
  }

  // ---------------------------------------------------------------- cached scalar columns

  /** The rows start .. end have their values in data, increment apart. */
  class ColumnCache<T(0)> {
    var start: int
    var end: int
    var increment: nat
    var data: seq<T>

    /** Nothing is cached. */
    constructor ()
      ensures start > end
    {
      start, end, increment, data := 1, 0, 0, [];
    }

    method Set(startRow: int, endRow: int, incr: nat, values: seq<T>)
      modifies this
      ensures start == startRow && end == endRow && increment == incr && data == values
    {
      start, end, increment, data := startRow, endRow, incr, values;
    }

    /** Every row the cache answers for has the right value. */
    ghost predicate Answers(value: nat -> T)
      reads this
    {
      forall row: nat :: start <= row <= end ==> CacheHolds(row, value)
    }

    ghost predicate CacheHolds(row: nat, value: nat -> T)
      reads this
    {
      start <= row && 0 <= (row - start) * increment < |data| && data[(row - start) * increment] == value(row)
    }
  }

  /** The antenna column: the values of one block are the antennae of its baselines. */
  class AntColumn {
    const ants: seq<nat>
    const columnCache: ColumnCache<nat>

    function Value(): nat -> nat
      requires |ants| > 0
    {
      (row: nat) => ants[row % |ants|]
    }

    constructor (ants: seq<nat>)
      requires |ants| > 0
      ensures this.ants == ants && fresh(columnCache) && columnCache.start > columnCache.end
    {
      this.ants := ants;
      columnCache := new ColumnCache<nat>();
    }

    method GetIntV(rownr: nat) returns (v: nat)
      requires |ants| > 0
      modifies columnCache
      ensures v == ants[rownr % |ants|]
      ensures columnCache.Answers(Value()) && columnCache.start <= rownr <= columnCache.end
    {
      var strow := rownr / |ants| * |ants|;
      BlockParts(rownr, |ants|);
      ghost var value := Value();
      columnCache.Set(strow, strow + |ants| - 1, 1, ants);
      forall row: nat | strow <= row <= strow + |ants| - 1 ensures columnCache.CacheHolds(row, value) {
        SameBlock(row, rownr / |ants|, |ants|);
      }
      v := ants[rownr - strow];
    }

    /** A read goes to the column only if the cache does not answer. */
    method Get(rownr: nat) returns (v: nat)
      requires |ants| > 0 && columnCache.Answers(Value())
      modifies columnCache
      ensures v == ants[rownr % |ants|] && columnCache.Answers(Value())
    {
      if columnCache.start <= rownr <= columnCache.end {
        assert columnCache.CacheHolds(rownr, Value());
        v := columnCache.data[(rownr - columnCache.start) * columnCache.increment];
      } else {
        v := GetIntV(rownr);
      }
    }
  }

  /** The time column: all rows of a block share one value. */
  class TimeColumn {
    const nrbasel: nat
    const time: nat -> real
    const columnCache: ColumnCache<real>
    var itsValue: real

    function Value(): nat -> real
      requires nrbasel > 0
    {
      (row: nat) => time(row / nrbasel)
    }

    constructor (nrbasel: nat, time: nat -> real)
      requires nrbasel > 0
      ensures this.nrbasel == nrbasel && this.time == time
      ensures fresh(columnCache) && columnCache.start > columnCache.end
    {
      this.nrbasel, this.time, itsValue := nrbasel, time, 0.0;
      columnCache := new ColumnCache<real>();
    }

    method GetdoubleV(rownr: nat) returns (v: real)
      requires nrbasel > 0
      modifies this`itsValue, columnCache
      ensures v == time(rownr / nrbasel)
      ensures columnCache.Answers(Value()) && columnCache.start <= rownr <= columnCache.end
    {
      var blnr := rownr / nrbasel;
      itsValue := time(blnr);
      var strow := blnr * nrbasel;
      BlockParts(rownr, nrbasel);
      columnCache.Set(strow, strow + nrbasel - 1, 0, [itsValue]);
      forall row: nat | strow <= row < strow + nrbasel ensures row / nrbasel == blnr {
        SameBlock(row, blnr, nrbasel);
      }
      v := itsValue;
    }

    method Get(rownr: nat) returns (v: real)
      requires nrbasel > 0 && columnCache.Answers(Value())
      modifies this`itsValue, columnCache
      ensures v == time(rownr / nrbasel) && columnCache.Answers(Value())
    {
      if columnCache.start <= rownr <= columnCache.end {
        assert columnCache.CacheHolds(rownr, Value());
        v := columnCache.data[(rownr - columnCache.start) * columnCache.increment];
      } else {
        v := GetdoubleV(rownr);
      }
    }
  }

  lemma SameBlock(row: nat, bl: nat, n: nat)
    requires n > 0 && bl * n <= row < bl * n + n
    ensures row / n == bl && row % n == row - bl * n
  {
    var q, r := row / n, row % n;
    assert row == q * n + r;
    MulMonotonic(q + 1, bl, n);
    MulMonotonic(bl + 1, q, n);
  }

  lemma MulMonotonic(a: int, b: int, n: nat)
    ensures a <= b ==> a * n <= b * n
  {
  }
}
