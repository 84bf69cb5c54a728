/** The running averages of catalogue sources: msssprocess.py updates them from one measurement to the
    next, and they are the averages over all measurements. Errors are kept as squares. */
module Averages {

  type Id = int

  /** A source extracted from an image. */
  datatype Source = Source(id: Id, zone: int, ra: real, decl: real, raErr2: real, declErr2: real, peak: real,
                           peakErr2: real)

  predicate Measured(s: Source) {
    s.raErr2 > 0.0 && s.declErr2 > 0.0 && s.peakErr2 > 0.0 && s.zone == s.decl.Floor
  }

  /** The averages a catalogue row keeps. */
  datatype Avgs = Avgs(wra: real, wdecl: real, weightRa: real, weightDecl: real, peak: real, peakSq: real,
                       weightPeak: real, weightedPeak: real, weightedPeakSq: real)

  datatype Row = Row(id: Id, dataset: int, datapoints: nat, zone: int, wmRa: real, wmDecl: real, wmRaErr2: real,
                     wmDeclErr2: real, avgs: Avgs)

  /** The quantities that are averaged. */
  datatype Quantity = Wra | Wdecl | WeightRa | WeightDecl | Peak | PeakSq | WeightPeak | WeightedPeak | WeightedPeakSq

  function Get(q: Quantity, a: Avgs): real {
    match q
    case Wra => a.wra
    case Wdecl => a.wdecl
    case WeightRa => a.weightRa
    case WeightDecl => a.weightDecl
    case Peak => a.peak
    case PeakSq => a.peakSq
    case WeightPeak => a.weightPeak
    case WeightedPeak => a.weightedPeak
    case WeightedPeakSq => a.weightedPeakSq
  }

  /** What is averaged, for one source. */
  function Terms(s: Source): Avgs
    requires Measured(s)
  {
    Avgs(s.ra / s.raErr2, s.decl / s.declErr2, 1.0 / s.raErr2, 1.0 / s.declErr2, s.peak, s.peak * s.peak,
         1.0 / s.peakErr2, s.peak / s.peakErr2, s.peak * s.peak / s.peakErr2)
  }

  function Mix(n: nat, avg: real, v: real): real { (n as real * avg + v) / (n as real + 1.0) }

  function MixAll(n: nat, a: Avgs, t: Avgs): Avgs {
    Avgs(Mix(n, a.wra, t.wra), Mix(n, a.wdecl, t.wdecl), Mix(n, a.weightRa, t.weightRa),
         Mix(n, a.weightDecl, t.weightDecl), Mix(n, a.peak, t.peak), Mix(n, a.peakSq, t.peakSq),
         Mix(n, a.weightPeak, t.weightPeak), Mix(n, a.weightedPeak, t.weightedPeak),
         Mix(n, a.weightedPeakSq, t.weightedPeakSq))
  }

  /** The row of a source that is new. */
  function NewRow(dataset: int, s: Source): Row
    requires Measured(s)
  {
    Row(s.id, dataset, 1, s.zone, s.ra, s.decl, s.raErr2, s.declErr2, Terms(s))
  }

  /** The row with one more measurement. */
  function Extended(r: Row, id: Id, s: Source): Row
    requires Measured(s) && r.avgs.weightRa > 0.0 && r.avgs.weightDecl > 0.0
  {
    var n := r.datapoints;
    var a := MixAll(n, r.avgs, Terms(s));
    WeightsPositive(n, r.avgs, s);
    Row(id, r.dataset, n + 1, (a.wdecl / a.weightDecl).Floor, a.wra / a.weightRa, a.wdecl / a.weightDecl,
        1.0 / ((n as real + 1.0) * a.weightRa), 1.0 / ((n as real + 1.0) * a.weightDecl), a)
  }

  lemma Quotient(x: real, y: real)
    requires x > 0.0 && y > 0.0
    ensures x / y > 0.0 && x * y > 0.0
  {
  }

  lemma MixPositive(n: nat, avg: real, v: real)
    requires avg > 0.0 && v > 0.0
    ensures Mix(n, avg, v) > 0.0 && (n as real + 1.0) * Mix(n, avg, v) > 0.0
  {
    var d := n as real + 1.0;
    assert n as real * avg >= 0.0;
    Quotient(n as real * avg + v, d);
    Quotient(Mix(n, avg, v), d);
  }

  lemma WeightsPositive(n: nat, a: Avgs, s: Source)
    requires Measured(s) && a.weightRa > 0.0 && a.weightDecl > 0.0
    ensures var m := MixAll(n, a, Terms(s));
      m.weightRa > 0.0 && m.weightDecl > 0.0 &&
      (n as real + 1.0) * m.weightRa > 0.0 && (n as real + 1.0) * m.weightDecl > 0.0
  {
    Quotient(1.0, s.raErr2);
    Quotient(1.0, s.declErr2);
    MixPositive(n, a.weightRa, 1.0 / s.raErr2);
    MixPositive(n, a.weightDecl, 1.0 / s.declErr2);
  }

  // ---------------------------------------------------------------- the batch values

  function Sum(vs: seq<real>): real { if vs == [] then 0.0 else Sum(vs[..|vs| - 1]) + vs[|vs| - 1] }

  predicate AllMeasured(hist: seq<Source>) { forall i :: 0 <= i < |hist| ==> Measured(hist[i]) }

  function Column(hist: seq<Source>, q: Quantity): (r: seq<real>)
    requires AllMeasured(hist)
    ensures |r| == |hist|
  {
    seq(|hist|, i requires 0 <= i < |hist| => Get(q, Terms(hist[i])))
  }

  function Mean(vs: seq<real>): real
    requires vs != []
  {
    Sum(vs) / |vs| as real
  }

  /** All averages are those over the history. */
  ghost predicate IsBatch(a: Avgs, hist: seq<Source>)
    requires hist != [] && AllMeasured(hist)
  {
    forall q :: Get(q, a) == Mean(Column(hist, q))
  }

  /** The row holds the weighted means over its history, with the error of the weighted mean. */
  ghost predicate RowOk(r: Row, hist: seq<Source>) {
    && hist != [] && AllMeasured(hist) && r.datapoints == |hist| && IsBatch(r.avgs, hist)
    && r.zone == r.wmDecl.Floor && r.avgs.weightRa > 0.0 && r.avgs.weightDecl > 0.0
    && var wRa, wDecl := Sum(Column(hist, WeightRa)), Sum(Column(hist, WeightDecl));
      && wRa > 0.0 && wDecl > 0.0
      && r.wmRa == Sum(Column(hist, Wra)) / wRa && r.wmDecl == Sum(Column(hist, Wdecl)) / wDecl
      && r.wmRaErr2 == 1.0 / wRa && r.wmDeclErr2 == 1.0 / wDecl
  }

  lemma SumAppend(vs: seq<real>, v: real)
    ensures Sum(vs + [v]) == Sum(vs) + v
  {
    assert (vs + [v])[..|vs|] == vs;
  }

  /** An updated average is the average over one value more. */
  lemma MixIsMean(vs: seq<real>, v: real)
    requires vs != []
    ensures Mix(|vs|, Mean(vs), v) == Mean(vs + [v])
  {
    SumAppend(vs, v);
    var n := |vs| as real;
    assert n * (Sum(vs) / n) == Sum(vs);
  }

  lemma ColumnAppend(hist: seq<Source>, s: Source, q: Quantity)
    requires AllMeasured(hist) && Measured(s)
    ensures AllMeasured(hist + [s]) && Column(hist + [s], q) == Column(hist, q) + [Get(q, Terms(s))]
  {
  }

  lemma MixIsBatch(hist: seq<Source>, s: Source, a: Avgs)
    requires hist != [] && AllMeasured(hist) && Measured(s) && IsBatch(a, hist)
    ensures AllMeasured(hist + [s]) && IsBatch(MixAll(|hist|, a, Terms(s)), hist + [s])
  {
    hide Mean, Column, Mix, Terms, Sum;
    var m := MixAll(|hist|, a, Terms(s));
    assert AllMeasured(hist + [s]);
    forall q ensures Get(q, m) == Mean(Column(hist + [s], q)) {
      ColumnAppend(hist, s, q);
      MixIsMean(Column(hist, q), Get(q, Terms(s)));
      assert Get(q, m) == Mix(|hist|, Get(q, a), Get(q, Terms(s)));
    }
  }

  /** Dividing averages is dividing sums. */
  lemma MeansQuotient(a: seq<real>, b: seq<real>)
    requires |a| == |b| > 0 && Mean(b) > 0.0
    ensures Sum(b) > 0.0 && Mean(a) / Mean(b) == Sum(a) / Sum(b)
    ensures |a| as real * Mean(b) == Sum(b)
  {
    hide Mean, Sum;
    var n := |a| as real;
    var x, y := Mean(a), Mean(b);
    MeanTimes(a);
    MeanTimes(b);
    Quotient(n, y);
    Cancel(n, x, y);
  }

  lemma MeanTimes(vs: seq<real>)
    requires vs != []
    ensures |vs| as real * Mean(vs) == Sum(vs)
  {
    var n, m := |vs| as real, Mean(vs);
    assert m == Sum(vs) / n;
    assert n * m == Sum(vs);
  }

  lemma Cancel(n: real, x: real, y: real)
    requires n > 0.0 && y > 0.0
    ensures n * y > 0.0 && x / y == (n * x) / (n * y)
  {
    var q := x / y;
    assert q * y == x;
    assert q * (n * y) == n * x;
  }

  /** One measurement more keeps a row right. */
  lemma ExtendedOk(r: Row, hist: seq<Source>, id: Id, s: Source)
    requires RowOk(r, hist) && Measured(s)
    ensures RowOk(Extended(r, id, s), hist + [s])
    ensures Extended(r, id, s).id == id && Extended(r, id, s).dataset == r.dataset
  {
    hide Mean, Column, Mix, Terms, Sum, IsBatch;
    var n := |hist|;
    MixIsBatch(hist, s, r.avgs);
    WeightsPositive(n, r.avgs, s);
    BatchQuotients(Extended(r, id, s).avgs, hist + [s]);
  }

  lemma BatchQuotients(a: Avgs, hist: seq<Source>)
    requires hist != [] && AllMeasured(hist) && IsBatch(a, hist) && a.weightRa > 0.0 && a.weightDecl > 0.0
    ensures var wRa, wDecl := Sum(Column(hist, WeightRa)), Sum(Column(hist, WeightDecl));
      && wRa > 0.0 && wDecl > 0.0
      && a.wra / a.weightRa == Sum(Column(hist, Wra)) / wRa
      && a.wdecl / a.weightDecl == Sum(Column(hist, Wdecl)) / wDecl
      && |hist| as real * a.weightRa == wRa && |hist| as real * a.weightDecl == wDecl
  {
    hide Mean, Sum;
    assert Get(Wra, a) == a.wra && Get(WeightRa, a) == a.weightRa;
    assert Get(Wdecl, a) == a.wdecl && Get(WeightDecl, a) == a.weightDecl;
    MeansQuotient(Column(hist, Wra), Column(hist, WeightRa));
    MeansQuotient(Column(hist, Wdecl), Column(hist, WeightDecl));
  }

  /** A new row is right. */
  lemma NewRowOk(dataset: int, s: Source)
    requires Measured(s)
    ensures RowOk(NewRow(dataset, s), [s]) && NewRow(dataset, s).id == s.id && NewRow(dataset, s).dataset == dataset
  {
    hide Sum, Mean;
    forall q ensures Sum(Column([s], q)) == Get(q, Terms(s)) == Mean(Column([s], q)) { OneValue(s, q); }
    Quotient(1.0, s.raErr2);
    Quotient(1.0, s.declErr2);
    Unweigh(s.ra, s.raErr2);
    Unweigh(s.decl, s.declErr2);
  }

  lemma Unweigh(x: real, e: real)
    requires e > 0.0
    ensures 1.0 / e > 0.0 && (x / e) / (1.0 / e) == x && 1.0 / (1.0 / e) == e
  {
    Quotient(1.0, e);
    var w := 1.0 / e;
    assert w * e == 1.0;
    assert x * w == x / e by { assert (x / e) * e == x; assert (x * w) * e == x; CancelRight(x / e, x * w, e); }
  }

  lemma CancelRight(a: real, b: real, e: real)
    requires e > 0.0 && a * e == b * e
    ensures a == b
  {
  }

  lemma OneValue(s: Source, q: Quantity)
    requires Measured(s)
    ensures Sum(Column([s], q)) == Get(q, Terms(s)) == Mean(Column([s], q))
  {
    var c := Column([s], q);
    assert c[..0] == [] && Sum(c) == Sum(c[..0]) + Get(q, Terms(s));
  }

  // ---------------------------------------------------------------- the batch values, field by field

  /** The value is what is averaged of a source under the quantity. */
  predicate IsValue(q: Quantity, s: Source, v: real)
    requires Measured(s)
  {
    match q
    case Wra => v == s.ra / s.raErr2
    case Wdecl => v == s.decl / s.declErr2
    case WeightRa => v == 1.0 / s.raErr2
    case WeightDecl => v == 1.0 / s.declErr2
    case Peak => v == s.peak
    case PeakSq => v == s.peak * s.peak
    case WeightPeak => v == 1.0 / s.peakErr2
    case WeightedPeak => v == s.peak / s.peakErr2
    case WeightedPeakSq => v == s.peak * s.peak / s.peakErr2
  }

  lemma ValueIsTerm(q: Quantity, s: Source, v: real)
    requires Measured(s) && IsValue(q, s, v)
    ensures v == Get(q, Terms(s))
  {
  }

  /** Each of the nine averages, times the number of measurements, is the sum of the values averaged. */
  lemma {:induction false} BatchSums(a: Avgs, hist: seq<Source>, q: Quantity, vs: seq<real>)
    requires hist != [] && AllMeasured(hist) && IsBatch(a, hist)
    requires |vs| == |hist| && forall i :: 0 <= i < |hist| ==> IsValue(q, hist[i], vs[i])
    ensures Sum(vs) == |hist| as real *
      match q
      case Wra => a.wra
      case Wdecl => a.wdecl
      case WeightRa => a.weightRa
      case WeightDecl => a.weightDecl
      case Peak => a.peak
      case PeakSq => a.peakSq
      case WeightPeak => a.weightPeak
      case WeightedPeak => a.weightedPeak
      case WeightedPeakSq => a.weightedPeakSq
  {
    hide Terms, Sum, Mean, IsValue;
    forall i | 0 <= i < |hist| ensures vs[i] == Column(hist, q)[i] { ValueIsTerm(q, hist[i], vs[i]); }
    assert vs == Column(hist, q);
    MeanTimes(vs);
    assert Get(q, a) == Mean(Column(hist, q));
  }

  // ---------------------------------------------------------------- the zone

  /** The position windows of the search for matches. */
  predicate InWindow(r: Row, s: Source, bmaj: real) { s.decl - bmaj <= r.wmDecl <= s.decl + bmaj }

  predicate InZones(r: Row, s: Source, bmaj: real) { (s.decl - bmaj).Floor <= r.zone <= (s.decl + bmaj).Floor }

  /** Looking at the zones around a source first never drops a row in its window. */
  lemma ZonesDropNothing(r: Row, hist: seq<Source>, s: Source, bmaj: real)
    requires RowOk(r, hist) && InWindow(r, s, bmaj)
    ensures InZones(r, s, bmaj)
  {
    FloorMonotonic(s.decl - bmaj, r.wmDecl);
    FloorMonotonic(r.wmDecl, s.decl + bmaj);
  }

  lemma FloorMonotonic(a: real, b: real)
    requires a <= b
    ensures a.Floor <= b.Floor
  {
  }
}
